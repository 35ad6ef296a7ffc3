/** system_discovery.rs, parse_version_string: a version picked out of the output of `--version`. */
module VersionString {
  import opened Basics

  /** Rust's char::is_whitespace. */
  predicate White(c: char) {
    || '\t' <= c <= '\r' || c == ' ' || c == '\U{85}' || c == '\U{A0}' || c == '\U{1680}'
    || '\U{2000}' <= c <= '\U{200A}' || c == '\U{2028}' || c == '\U{2029}' || c == '\U{202F}'
    || c == '\U{205F}' || c == '\U{3000}'
  }

  predicate NoWhite(s: string) {
    forall i :: 0 <= i < |s| ==> !White(s[i])
  }

  /** lines().next(): what stands before the first line feed. A carriage return left at its end is
      white and goes with the trimming. */
  function FirstLine(s: string): string {
    if s == "" || s[0] == '\n' then "" else [s[0]] + FirstLine(s[1..])
  }

  function TrimStart(s: string): string {
    if s != "" && White(s[0]) then TrimStart(s[1..]) else s
  }

  function TrimEnd(s: string): string {
    if s != "" && White(Last(s)) then TrimEnd(Front(s)) else s
  }

  function Trim(s: string): string {
    TrimEnd(TrimStart(s))
  }

  /** The length of the word that s starts with. */
  function WordLength(s: string): (n: nat)
    ensures n <= |s|
    ensures NoWhite(s[..n])
    ensures n < |s| ==> White(s[n])
  {
    if s == "" || White(s[0]) then 0 else 1 + WordLength(s[1..])
  }

  /** split_whitespace() */
  function Words(s: string): (ws: seq<string>)
    decreases |s|
  {
    if s == "" then []
    else if White(s[0]) then Words(s[1..])
    else [s[..WordLength(s)]] + Words(s[WordLength(s)..])
  }

  function StripV(w: string): string {
    if w != "" && w[0] == 'v' then w[1..] else w
  }

  function TrimCommas(w: string): string {
    if w != "" && Last(w) == ',' then TrimCommas(Front(w)) else w
  }

  function Cleaned(w: string): string {
    TrimCommas(StripV(w))
  }

  predicate VersionLike(w: string) {
    w != "" && '0' <= w[0] <= '9' && '.' in w
  }

  /** The words before the i-th do not clean to a version, the i-th does. */
  predicate FirstVersion(ws: seq<string>, i: int) {
    0 <= i < |ws| && VersionLike(Cleaned(ws[i])) && forall j :: 0 <= j < i ==> !VersionLike(Cleaned(ws[j]))
  }

  /** find */
  function FindVersion(ws: seq<string>): (w: Option<string>)
    ensures w.Some? ==> w.value in ws && VersionLike(Cleaned(w.value))
    ensures w.None? ==> forall x :: x in ws ==> !VersionLike(Cleaned(x))
  {
    if ws == [] then None
    else if VersionLike(Cleaned(ws[0])) then Some(ws[0])
    else FindVersion(ws[1..])
  }

  function Parse(raw: string): string {
    var line := Trim(FirstLine(raw));
    var w := FindVersion(Words(line));
    if w.Some? then Cleaned(w.value) else line
  }

  // ── Facts about the steps ──────────────────────────────────────────────────────────────────

  lemma {:induction false} WordsHaveNoWhite(s: string, w: string)
    requires w in Words(s)
    ensures NoWhite(w)
    decreases |s|
  {
    if White(s[0]) {
      WordsHaveNoWhite(s[1..], w);
    } else if w != s[..WordLength(s)] {
      WordsHaveNoWhite(s[WordLength(s)..], w);
    }
  }

  lemma {:induction false} TrimCommasPrefix(w: string)
    ensures TrimCommas(w) <= w
    ensures TrimCommas(w) != "" ==> Last(TrimCommas(w)) != ','
    ensures TrimCommas(TrimCommas(w)) == TrimCommas(w)
  {
    if w != "" && Last(w) == ',' { TrimCommasPrefix(Front(w)); }
  }

  lemma {:induction false} OneWord(w: string)
    requires w != "" && NoWhite(w)
    ensures Words(w) == [w]
  {
    assert WordLength(w) == |w|;
    assert w[..|w|] == w && Words(w[|w|..]) == [];
  }

  lemma {:induction false} OneLine(s: string)
    requires '\n' !in s
    ensures FirstLine(s) == s
  {
    if s != "" { OneLine(s[1..]); }
  }

  lemma {:induction false} FirstLineIsOneLine(s: string)
    ensures '\n' !in FirstLine(s)
  {
    if s != "" && s[0] != '\n' { FirstLineIsOneLine(s[1..]); }
  }

  lemma {:induction false} TrimStartSuffix(s: string)
    ensures |TrimStart(s)| <= |s| && TrimStart(s) == s[|s| - |TrimStart(s)|..]
    ensures TrimStart(s) != "" ==> !White(TrimStart(s)[0])
  {
    if s != "" && White(s[0]) { TrimStartSuffix(s[1..]); }
  }

  lemma {:induction false} TrimEndPrefix(s: string)
    ensures TrimEnd(s) <= s
    ensures TrimEnd(s) != "" ==> !White(Last(TrimEnd(s)))
  {
    if s != "" && White(Last(s)) { TrimEndPrefix(Front(s)); }
  }

  lemma TrimmedStays(s: string)
    requires s != "" ==> !White(s[0]) && !White(Last(s))
    ensures Trim(s) == s
  {
  }

  lemma TrimTwice(s: string)
    ensures Trim(Trim(s)) == Trim(s)
    ensures forall c :: c in Trim(s) ==> c in s
  {
    TrimStartSuffix(s);
    TrimEndPrefix(TrimStart(s));
    TrimmedStays(Trim(s));
  }

  // ── What the steps mean ────────────────────────────────────────────────────────────────────

  predicate AllWhite(s: string) {
    forall i :: 0 <= i < |s| ==> White(s[i])
  }

  /** Trimming takes white space from both ends and all of it. */
  lemma TrimExact(s: string)
    ensures exists before, after :: AllWhite(before) && AllWhite(after) && s == before + Trim(s) + after
    ensures Trim(s) != "" ==> !White(Trim(s)[0]) && !White(Last(Trim(s)))
  {
    var t := TrimStart(s);
    TrimStartSuffix(s);
    TrimEndPrefix(t);
    TrimStartWhite(s);
    TrimEndWhite(t);
    var before, after := s[..|s| - |t|], t[|Trim(s)|..];
    assert s == before + t && t == Trim(s) + after;
    assert s == before + Trim(s) + after;
  }

  lemma {:induction false} TrimStartWhite(s: string)
    ensures |TrimStart(s)| <= |s| && AllWhite(s[..|s| - |TrimStart(s)|])
  {
    if s != "" && White(s[0]) {
      TrimStartWhite(s[1..]);
      var n := |s| - |TrimStart(s)|;
      forall i | 0 <= i < n ensures White(s[i]) {
        if i > 0 { assert s[i] == s[1..][..n - 1][i - 1]; }
      }
    }
  }

  lemma {:induction false} TrimEndWhite(s: string)
    ensures |TrimEnd(s)| <= |s| && AllWhite(s[|TrimEnd(s)|..])
  {
    if s != "" && White(Last(s)) {
      TrimEndWhite(Front(s));
      var n := |TrimEnd(s)|;
      forall i | n <= i < |s| ensures White(s[i]) {
        if i < |s| - 1 { assert s[i] == Front(s)[n..][i - n]; }
      }
    }
  }

  lemma {:induction false} FirstLineExact(line: string, rest: string)
    requires '\n' !in line
    ensures FirstLine(line + "\n" + rest) == line
  {
    if line == "" {
      assert line + "\n" + rest == "\n" + rest;
    } else {
      FirstLineExact(line[1..], rest);
      assert (line + "\n" + rest)[1..] == line[1..] + "\n" + rest;
    }
  }

  /** White space separates words and nothing else does. */
  lemma {:induction false} WordsSplit(a: string, c: char, b: string)
    requires White(c)
    ensures Words(a + [c] + b) == Words(a) + Words(b)
    decreases |a|
  {
    var s := a + [c] + b;
    if a == "" {
      assert s[1..] == b;
    } else if White(a[0]) {
      assert s[1..] == a[1..] + [c] + b;
      WordsSplit(a[1..], c, b);
    } else {
      var n := WordLength(a);
      SameWord(a, c, b);
      assert s[n..] == a[n..] + [c] + b && s[..n] == a[..n];
      WordsSplit(a[n..], c, b);
      assert Words(a) == [a[..n]] + Words(a[n..]);
      assert Words(s) == [s[..n]] + Words(s[n..]);
    }
  }

  lemma {:induction false} SameWord(a: string, c: char, b: string)
    requires White(c)
    ensures WordLength(a + [c] + b) == WordLength(a)
  {
    if a != "" && !White(a[0]) {
      SameWord(a[1..], c, b);
      assert (a + [c] + b)[1..] == a[1..] + [c] + b;
    }
  }

  lemma {:induction false} FindsFirst(ws: seq<string>)
    ensures FindVersion(ws).Some? ==> exists i :: FirstVersion(ws, i) && ws[i] == FindVersion(ws).value
  {
    if ws != [] {
      if VersionLike(Cleaned(ws[0])) {
        assert FirstVersion(ws, 0);
      } else if FindVersion(ws[1..]).Some? {
        FindsFirst(ws[1..]);
        var i :| FirstVersion(ws[1..], i) && ws[1..][i] == FindVersion(ws[1..]).value;
        hide VersionLike, Cleaned;
        assert ws[i + 1] == ws[1..][i];
        forall j | 0 <= j < i + 1 ensures !VersionLike(Cleaned(ws[j])) {
          if j > 0 { assert ws[j] == ws[1..][j - 1]; }
        }
        assert FirstVersion(ws, i + 1);
      }
    }
  }

  // ── What a word bears ──────────────────────────────────────────────────────────────────────

  predicate AllCommas(s: string) {
    forall i :: 0 <= i < |s| ==> s[i] == ','
  }

  /** A digit first, a dot somewhere, no comma at the end. */
  predicate Version(r: string) {
    r != "" && '0' <= r[0] <= '9' && (exists i :: 0 <= i < |r| && r[i] == '.') && r[|r| - 1] != ','
  }

  /** The word is r, with one v before it or not, and with any number of commas after it. */
  ghost predicate Bears(w: string, r: string) {
    exists commas :: AllCommas(commas) && (w == r + commas || w == "v" + r + commas)
  }

  lemma {:induction false} CommasGo(r: string, commas: string)
    requires AllCommas(commas) && r != "" && Last(r) != ','
    ensures TrimCommas(r + commas) == r
  {
    if commas == "" {
      assert r + commas == r;
    } else {
      assert (r + commas)[..|r + commas| - 1] == r + Front(commas);
      CommasGo(r, Front(commas));
    }
  }

  lemma {:induction false} CommasWent(s: string)
    ensures |TrimCommas(s)| <= |s| && s[..|TrimCommas(s)|] == TrimCommas(s) && AllCommas(s[|TrimCommas(s)|..])
  {
    if s != "" && Last(s) == ',' {
      CommasWent(Front(s));
      var n := |TrimCommas(s)|;
      forall i | n <= i < |s| ensures s[i] == ',' {
        if i < |s| - 1 { assert s[i] == Front(s)[n..][i - n]; }
      }
    }
  }

  /** Cleaning a word yields the version that it bears, and no other word is taken for one. */
  lemma CleanedIff(w: string, r: string)
    ensures Version(r) ==> (Bears(w, r) <==> Cleaned(w) == r)
    ensures VersionLike(Cleaned(w)) <==> Version(Cleaned(w))
  {
    TrimCommasPrefix(StripV(w));
    if Version(r) && Bears(w, r) {
      var commas :| AllCommas(commas) && (w == r + commas || w == "v" + r + commas);
      CommasGo(r, commas);
      assert StripV(w) == r + commas;
    }
    if Cleaned(w) == r && Version(r) {
      var s := StripV(w);
      CommasWent(s);
      assert s == r + s[|r|..];
      assert w == s || w == "v" + s;
      assert "v" + s == "v" + r + s[|r|..];
    }
  }

  lemma TrimStartWords(s: string)
    ensures Words(TrimStart(s)) == Words(s)
  {
    if s != "" && White(s[0]) { TrimStartWords(s[1..]); }
  }

  lemma {:induction false} TrimEndWords(s: string)
    ensures Words(TrimEnd(s)) == Words(s)
  {
    if s != "" && White(Last(s)) {
      TrimEndWords(Front(s));
      WordsSplit(Front(s), Last(s), "");
      assert Front(s) + [Last(s)] + "" == s;
    }
  }

  // ── The results ────────────────────────────────────────────────────────────────────────────

  /** The i-th word bears the version r, and no word before it bears any. */
  ghost predicate FirstBearer(ws: seq<string>, i: int, r: string) {
    0 <= i < |ws| && Bears(ws[i], r) && forall j, x :: 0 <= j < i && Version(x) ==> !Bears(ws[j], x)
  }

  ghost predicate NoBearer(ws: seq<string>) {
    forall w, x :: w in ws && Version(x) ==> !Bears(w, x)
  }

  lemma BearerFound(ws: seq<string>)
    ensures var w := FindVersion(ws);
            && (w.None? ==> NoBearer(ws))
            && (w.Some? ==> exists i :: FirstBearer(ws, i, Cleaned(w.value)))
            && (w.Some? ==> Version(Cleaned(w.value)) && w.value in ws)
  {
    forall w, x ensures Version(x) ==> (Bears(w, x) <==> Cleaned(w) == x) { CleanedIff(w, x); }
    forall w ensures VersionLike(Cleaned(w)) <==> Version(Cleaned(w)) { CleanedIff(w, ""); }
    FindsFirst(ws);
    hide Bears, Version, VersionLike, Cleaned;
    var w := FindVersion(ws);
    if w.Some? {
      var i :| FirstVersion(ws, i) && ws[i] == w.value;
      assert FirstBearer(ws, i, Cleaned(w.value));
    }
  }

  /** The result is the version that the first bearing word of the first line bears, without white space; if
      no word bears a version, it is the trimmed first line. */
  lemma ParseShape(raw: string)
    ensures var r, ws := Parse(raw), Words(FirstLine(raw));
            || (Version(r) && NoWhite(r) && exists i :: FirstBearer(ws, i, r))
            || (r == Trim(FirstLine(raw)) && NoBearer(ws))
  {
    var line := Trim(FirstLine(raw));
    var w := FindVersion(Words(line));
    TrimStartWords(FirstLine(raw));
    TrimEndWords(TrimStart(FirstLine(raw)));
    BearerFound(Words(line));
    if w.Some? {
      WordsHaveNoWhite(line, w.value);
      TrimCommasPrefix(StripV(w.value));
    }
    hide Words, Trim, FirstLine, Version, FindVersion, FirstBearer, NoBearer;
  }

  /** Words that bear no version, then one that bears r: then r is found. */
  lemma FoundAfter(raw: string, before: seq<string>, w: string, r: string)
    requires Words(FirstLine(raw)) == before + [w] && NoBearer(before) && Version(r) && Bears(w, r)
    ensures Parse(raw) == r
  {
    var ws := before + [w];
    ParseShape(raw);
    hide Words, FirstLine, Version, Bears, Parse, Trim;
    assert w in ws && forall j :: 0 <= j < |before| ==> ws[j] == before[j] && before[j] in before;
    if i :| FirstBearer(ws, i, Parse(raw)) {
      assert ws[i] == w;
      CleanedIff(w, r);
      CleanedIff(w, Parse(raw));
    }
  }

  /** A version after words that bear none is found, with or without a v and whatever commas follow it; what
      comes after the line does not matter. */
  lemma FindsVersion(before: string, w: string, r: string, rest: string)
    requires '\n' !in before && '\n' !in w && NoWhite(w) && Version(r) && Bears(w, r) && NoBearer(Words(before))
    ensures Parse(before + " " + w + "\n" + rest) == r && Parse(before + " " + w) == r
  {
    var line := before + " " + w;
    assert w != "";
    hide Version, Bears, NoBearer, Parse;
    FirstLineExact(line, rest);
    OneLine(line);
    OneWordAfter(before, w);
    FoundAfter(line, Words(before), w, r);
    FoundAfter(line + "\n" + rest, Words(before), w, r);
  }

  /** A version on its own is found, with or without a v, whatever commas follow it. */
  lemma FindsAlone(r: string, commas: string)
    requires Version(r) && NoWhite(r) && AllCommas(commas)
    ensures Parse("v" + r + commas) == r && Parse(r + commas) == r
  {
    var w, u := "v" + r + commas, r + commas;
    assert Bears(w, r) && Bears(u, r);
    OneLine(w);
    OneLine(u);
    OneWord(w);
    OneWord(u);
    assert NoBearer([]);
    hide Version, Bears, NoBearer, Parse, Words, FirstLine;
    FoundAfter(w, [], w, r);
    FoundAfter(u, [], u, r);
  }

  lemma OneWordAfter(before: string, w: string)
    requires w != "" && NoWhite(w)
    ensures Words(before + " " + w) == Words(before) + [w]
  {
    WordsSplit(before, ' ', w);
    OneWord(w);
  }

  /** A clean version parses to itself. */
  lemma VersionStays(r: string)
    requires VersionLike(r) && Last(r) != ',' && NoWhite(r)
    ensures Parse(r) == r
  {
    OneLine(r);
    TrimmedStays(r);
    OneWord(r);
    assert Cleaned(r) == r;
    assert FindVersion([r]) == Some(r);
    hide FirstLine, Trim, Words, Cleaned, VersionLike, FindVersion;
  }

  /** Parsing a parsed version changes nothing, on any string. */
  lemma ParseTwice(raw: string)
    ensures Parse(Parse(raw)) == Parse(raw)
  {
    var line := Trim(FirstLine(raw));
    var w := FindVersion(Words(line));
    if w.Some? {
      WordsHaveNoWhite(line, w.value);
      TrimCommasPrefix(StripV(w.value));
      hide FirstLine, Trim, Words, FindVersion;
      VersionStays(Parse(raw));
    } else {
      FirstLineIsOneLine(raw);
      TrimTwice(FirstLine(raw));
      OneLine(line);
      hide FirstLine, Trim, Words, FindVersion;
    }
  }
}
