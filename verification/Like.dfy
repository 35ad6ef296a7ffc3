/** SQLite's LIKE, and what `x LIKE '%' || word || '%'` means for a word typed by a user. */
module Like {
  /** LIKE folds the case of ASCII letters only. */
  function Fold(c: char): char {
    if 'A' <= c <= 'Z' then 'a' + (c - 'A') else c
  }

  /** Two characters fold alike exactly when they are the same or the two cases of one ASCII letter. */
  lemma FoldIff(c: char, d: char)
    ensures Fold(c) == Fold(d) <==>
            || c == d
            || ('A' <= c <= 'Z' && d as int == c as int + 32) || ('A' <= d <= 'Z' && c as int == d as int + 32)
  {
    if 'A' <= c <= 'Z' { FoldLetter(c); }
    if 'A' <= d <= 'Z' { FoldLetter(d); }
  }

  lemma FoldLetter(c: char)
    requires 'A' <= c <= 'Z'
    ensures Fold(c) as int == c as int + 32
  {
    assert 'a' as int == 'A' as int + 32;
  }

  predicate Like(text: string, pattern: string)
    decreases |text| + |pattern|
  {
    if pattern == "" then text == ""
    else if pattern[0] == '%' then Like(text, pattern[1..]) || (text != "" && Like(text[1..], pattern))
    else if text == "" then false
    else (pattern[0] == '_' || Fold(text[0]) == Fold(pattern[0])) && Like(text[1..], pattern[1..])
  }

  predicate StartsWith(text: string, word: string) {
    |word| <= |text| && forall k :: 0 <= k < |word| ==> Fold(text[k]) == Fold(word[k])
  }

  /** The word occurs in the text, up to ASCII case. */
  predicate Contains(text: string, word: string) {
    exists i :: 0 <= i <= |text| && StartsWith(text[i..], word)
  }

  predicate Plain(word: string) {
    forall k :: 0 <= k < |word| ==> word[k] != '%' && word[k] != '_'
  }

  lemma {:induction false} AnythingMatches(text: string)
    ensures Like(text, "%")
  {
    if text != "" { AnythingMatches(text[1..]); }
  }

  lemma {:induction false} PlainPrefix(text: string, word: string)
    requires Plain(word)
    ensures Like(text, word + "%") <==> StartsWith(text, word)
  {
    if word == "" {
      AnythingMatches(text);
      assert word + "%" == "%";
    } else {
      assert (word + "%")[1..] == word[1..] + "%";
      if text != "" {
        PlainPrefix(text[1..], word[1..]);
        StartsWithStep(text, word);
      }
    }
  }

  lemma StartsWithStep(text: string, word: string)
    requires text != "" && word != ""
    ensures StartsWith(text, word) <==> Fold(text[0]) == Fold(word[0]) && StartsWith(text[1..], word[1..])
  {
    if Fold(text[0]) == Fold(word[0]) && StartsWith(text[1..], word[1..]) {
      forall k | 0 <= k < |word| ensures Fold(text[k]) == Fold(word[k]) {
        if k > 0 { assert text[k] == text[1..][k - 1] && word[k] == word[1..][k - 1]; }
      }
    }
  }

  lemma {:induction false} LeadingPercent(text: string, pattern: string)
    ensures Like(text, "%" + pattern) <==> exists i :: 0 <= i <= |text| && Like(text[i..], pattern)
  {
    assert ("%" + pattern)[1..] == pattern;
    assert text[0..] == text;
    if text != "" {
      LeadingPercent(text[1..], pattern);
      forall i | 0 < i <= |text| ensures text[1..][i - 1..] == text[i..] {}
      forall i | 0 <= i <= |text[1..]| ensures text[1..][i..] == text[i + 1..] {}
    }
  }

  /** For a word without wildcards the search condition is case-insensitive containment. */
  lemma PlainWord(text: string, word: string)
    requires Plain(word)
    ensures Like(text, "%" + word + "%") <==> Contains(text, word)
  {
    LeadingPercent(text, word + "%");
    assert "%" + word + "%" == "%" + (word + "%");
    forall i | 0 <= i <= |text| ensures Like(text[i..], word + "%") <==> StartsWith(text[i..], word) {
      PlainPrefix(text[i..], word);
    }
  }

  /** Each character of the pattern matches the character at its place, wildcards included. */
  predicate Covers(pattern: string, text: string) {
    && |pattern| == |text|
    && forall k :: 0 <= k < |pattern| ==> pattern[k] in {'%', '_'} || Fold(pattern[k]) == Fold(text[k])
  }

  lemma {:induction false} CoveredPrefix(a: string, p: string, text: string, pattern: string)
    requires Covers(p, a) && Like(text, pattern)
    ensures Like(a + text, p + pattern)
  {
    if a == "" {
      assert a + text == text && p + pattern == pattern;
    } else {
      assert (a + text)[1..] == a[1..] + text && (p + pattern)[1..] == p[1..] + pattern;
      CoveredPrefix(a[1..], p[1..], text, pattern);
    }
  }

  /** A word with a wildcard also finds a text that does not contain it. */
  lemma WildcardFindsMore(word: string) returns (text: string)
    requires !Plain(word)
    ensures Like(text, "%" + word + "%") && !Contains(text, word)
  {
    var k :| 0 <= k < |word| && (word[k] == '%' || word[k] == '_');
    var before, after := word[..k], word[k + 1..];
    assert word + "%" == before + ([word[k]] + (after + "%"));
    AnythingMatches("");
    CoveredPrefix(after, after, "", "%");
    assert after + "" == after;
    assert ([word[k]] + (after + "%"))[1..] == after + "%";
    if word[k] == '%' {
      text := before + after;
      assert Like(after, [word[k]] + (after + "%"));
      CoveredPrefix(before, before, after, [word[k]] + (after + "%"));
    } else {
      text := before + (['x'] + after);
      assert (['x'] + after)[1..] == after;
      assert Like(['x'] + after, [word[k]] + (after + "%"));
      CoveredPrefix(before, before, ['x'] + after, [word[k]] + (after + "%"));
      assert text[0..] == text && text[k] == 'x';
    }
    assert Like(text, word + "%");
    assert "%" + word + "%" == "%" + (word + "%") && ("%" + (word + "%"))[1..] == word + "%";
    forall i | 0 <= i <= |text| ensures !StartsWith(text[i..], word) {
      if i == 0 && word[k] == '_' { assert Fold(text[i..][k]) != Fold(word[k]); }
    }
  }

  /** Searching for a word means containment, on every text, exactly when the word has no wildcard. */
  lemma SearchMeansContainmentIff(word: string)
    ensures (forall text :: Like(text, "%" + word + "%") <==> Contains(text, word)) <==> Plain(word)
  {
    if Plain(word) {
      forall text ensures Like(text, "%" + word + "%") <==> Contains(text, word) { PlainWord(text, word); }
    } else {
      var text := WildcardFindsMore(word);
    }
  }
}
