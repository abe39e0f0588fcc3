/**
 Catalog slugs, derived by the backend and by the form from the same accent-folded, lower-case
 text.
 */
module Slug {
  import opened Options
  import opened WhiteSpace

  const MAX_LENGTH := 128

  predicate IsWordChar(c: char) {
    'a' <= c <= 'z' || '0' <= c <= '9'
  }

  predicate IsWord(s: string) {
    s != "" && forall i | 0 <= i < |s| :: IsWordChar(s[i])
  }

  /** The pattern `^[a-z0-9]+(?:-[a-z0-9]+)*$`: a word, or a word, a hyphen and a match. */
  predicate MatchesSlug(s: string)
    decreases |s|
  {
    exists k: nat | k <= |s| :: IsWord(s[..k]) && (k == |s| || (s[k] == '-' && MatchesSlug(s[k + 1..])))
  }

  function SkipSeparators(s: string): (rest: string)
    ensures |rest| <= |s|
  {
    if s != "" && !IsWordChar(s[0]) then SkipSeparators(s[1..]) else s
  }

  /** Every run of characters outside a-z and 0-9 becomes one hyphen. */
  function Separate(s: string): string
    decreases |s|
  {
    if s == "" then ""
    else if IsWordChar(s[0]) then [s[0]] + Separate(s[1..])
    else "-" + Separate(SkipSeparators(s[1..]))
  }

  // ---------------------------------------------------------------------------------------
  // The form
  // ---------------------------------------------------------------------------------------

  /** `replace(/-+/g, "-")`. */
  function Collapse(s: string): string {
    if s == "" then ""
    else if |s| >= 2 && s[0] == '-' && s[1] == '-' then Collapse(s[1..])
    else [s[0]] + Collapse(s[1..])
  }

  /** `replace(/^-|-$/g, "")`. */
  function DropEdgeHyphens(s: string): string {
    var tail := if s != "" && s[0] == '-' then s[1..] else s;
    if tail != "" && tail[|tail| - 1] == '-' then tail[..|tail| - 1] else tail
  }

  /** `replace(/-+$/g, "")`. */
  function TrimRight(s: string): string {
    if s != "" && s[|s| - 1] == '-' then TrimRight(s[..|s| - 1]) else s
  }

  /** The slug before it is cut to the column's length. */
  function Uncut(folded: string): string {
    DropEdgeHyphens(Collapse(Separate(folded)))
  }

  function SlugifyCatalogName(folded: string): string {
    var normalized := Uncut(folded);
    if |normalized| > MAX_LENGTH then TrimRight(normalized[..MAX_LENGTH]) else normalized
  }

  // ---------------------------------------------------------------------------------------
  // The backend
  // ---------------------------------------------------------------------------------------

  function TrimLeft(s: string): string {
    if s != "" && s[0] == '-' then TrimLeft(s[1..]) else s
  }

  /** `strings.Trim(s, "-")`. */
  function Trim(s: string): string {
    TrimRight(TrimLeft(s))
  }

  predicate HasDouble(s: string) {
    exists i | 0 <= i < |s| - 1 :: s[i] == s[i + 1] == '-'
  }

  /** `strings.ReplaceAll(s, "--", "-")`: left to right, without overlap. */
  function ReplaceDouble(s: string): (r: string)
    ensures |r| <= |s|
  {
    if |s| < 2 then s
    else if s[0] == s[1] == '-' then "-" + ReplaceDouble(s[2..])
    else [s[0]] + ReplaceDouble(s[1..])
  }

  function LowerAscii(s: string): (t: string)
    ensures |t| == |s|
  {
    seq(|s|, i requires 0 <= i < |s| => if 'A' <= s[i] <= 'Z' then 'a' + (s[i] - 'A') else s[i])
  }

  /** The slug, or none for ErrInvalidSlug. */
  function NormalizeSlug(slug: string): Option<string> {
    var normalized := TrimSpace(LowerAscii(slug));
    if normalized == "" || !MatchesSlug(normalized) then None else Some(normalized)
  }

  lemma {:induction false} ReplaceShrinks(s: string)
    ensures HasDouble(s) ==> |ReplaceDouble(s)| < |s|
  {
    if |s| >= 2 && !(s[0] == s[1] == '-') {
      ReplaceShrinks(s[1..]);
      if HasDouble(s) {
        var i :| 0 <= i < |s| - 1 && s[i] == s[i + 1] == '-';
        assert s[1..][i - 1] == s[1..][i] == '-';
      }
    }
  }

  /** Hyphens collapse to the same text before and after halving a run. */
  lemma {:induction false} ReplaceKeepsCollapse(s: string)
    ensures Collapse(ReplaceDouble(s)) == Collapse(s)
    ensures s != "" ==> ReplaceDouble(s) != "" && ReplaceDouble(s)[0] == s[0]
    decreases |s|
  {
    if |s| >= 2 {
      if s[0] == s[1] == '-' {
        ReplaceKeepsCollapse(s[2..]);
        assert s[1..][1..] == s[2..];
        HyphenCollapse(s[2..], ReplaceDouble(s[2..]));
        assert ReplaceDouble(s) == "-" + ReplaceDouble(s[2..]);
        assert s[1..] == "-" + s[2..];
      } else {
        ReplaceKeepsCollapse(s[1..]);
        assert ReplaceDouble(s)[1..] == ReplaceDouble(s[1..]);
      }
    }
  }

  /** A hyphen in front collapses alike before texts that collapse alike and start alike. */
  lemma HyphenCollapse(s: string, t: string)
    requires Collapse(s) == Collapse(t) && (s == "" <==> t == "") && (s != "" ==> s[0] == t[0])
    ensures Collapse("-" + s) == Collapse("-" + t)
  {
    assert ("-" + s)[1..] == s && ("-" + t)[1..] == t;
  }

  lemma {:induction false} CollapseIdle(s: string)
    requires !HasDouble(s)
    ensures Collapse(s) == s
  {
    if s != "" {
      assert |s| >= 2 ==> !(s[0] == s[1] == '-');
      forall i | 0 <= i < |s[1..]| - 1 ensures !(s[1..][i] == s[1..][i + 1] == '-') {
        assert !(s[i + 1] == s[i + 2] == '-');
      }
      CollapseIdle(s[1..]);
    }
  }

  /** The backend's collapse loop, on any text. */
  method CollapseDoubles(text: string) returns (s: string)
    ensures s == Collapse(text) && !HasDouble(s)
  {
    s := text;
    while HasDouble(s)
      invariant Collapse(s) == Collapse(text)
      decreases |s|
    {
      ReplaceShrinks(s);
      ReplaceKeepsCollapse(s);
      s := ReplaceDouble(s);
    }
    CollapseIdle(s);
  }

  method SlugFromName(folded: string) returns (slug: Option<string>)
    ensures slug == if SlugifyCatalogName(folded) == "" then None else Some(SlugifyCatalogName(folded))
  {
    var normalized := Separate(folded);
    SeparateIsTidy(folded);
    TrimIsDrop(normalized);
    CollapseIdle(normalized);
    normalized := Trim(normalized);
    assert Tidy(normalized);
    CollapseIdle(normalized);
    normalized := CollapseDoubles(normalized);
    if |normalized| > MAX_LENGTH {
      TrimCut(normalized);
      normalized := Trim(normalized[..MAX_LENGTH]);
    }
    SlugifyIsClean(folded);
    if normalized != "" {
      CleanIsNormal(normalized);
    }
    return NormalizeSlug(normalized);
  }

  // ---------------------------------------------------------------------------------------
  // Text between the steps
  // ---------------------------------------------------------------------------------------

  /** Words and single hyphens. */
  predicate Tidy(s: string) {
    (forall i | 0 <= i < |s| :: IsWordChar(s[i]) || s[i] == '-') && !HasDouble(s)
  }

  /** Tidy with no hyphen at either end. */
  predicate Clean(s: string) {
    Tidy(s) && (s != "" ==> s[0] != '-' && s[|s| - 1] != '-')
  }

  lemma {:induction false} SkipStops(s: string)
    ensures SkipSeparators(s) != "" ==> IsWordChar(SkipSeparators(s)[0])
  {
    if s != "" && !IsWordChar(s[0]) {
      SkipStops(s[1..]);
    }
  }

  lemma TidyCons(c: char, s: string)
    requires Tidy(s) && (IsWordChar(c) || (c == '-' && (s != "" ==> s[0] != '-')))
    ensures Tidy([c] + s)
  {
    var t := [c] + s;
    forall i | 0 <= i < |t| - 1 ensures !(t[i] == t[i + 1] == '-') {
      assert i > 0 ==> t[i] == s[i - 1];
      assert t[i + 1] == s[i];
    }
  }

  lemma {:induction false} SeparateIsTidy(s: string)
    ensures Tidy(Separate(s)) && |Separate(s)| <= |s|
    ensures s != "" && IsWordChar(s[0]) ==> Separate(s)[0] == s[0]
    decreases |s|
  {
    if s != "" {
      if IsWordChar(s[0]) {
        SeparateIsTidy(s[1..]);
        TidyCons(s[0], Separate(s[1..]));
      } else {
        var rest := SkipSeparators(s[1..]);
        SkipStops(s[1..]);
        SeparateIsTidy(rest);
        TidyCons('-', Separate(rest));
      }
    }
  }

  lemma SliceIsTidy(s: string, from: nat, to: nat)
    requires Tidy(s) && from <= to <= |s|
    ensures Tidy(s[from..to])
  {
    var t := s[from..to];
    forall i | 0 <= i < |t| - 1 ensures !(t[i] == t[i + 1] == '-') {
      assert !(s[from + i] == s[from + i + 1] == '-');
    }
  }

  /** On tidy text a single hyphen at each end is all there is to trim. */
  lemma TrimIsDrop(s: string)
    requires Tidy(s)
    ensures Trim(s) == DropEdgeHyphens(s) && Clean(Trim(s))
  {
    var tail := if s != "" && s[0] == '-' then s[1..] else s;
    assert |s| >= 2 ==> !(s[0] == s[1] == '-');
    assert TrimLeft(s) == tail;
    SliceIsTidy(s, |s| - |tail|, |s|);
    TrimRightDrops(tail);
  }

  lemma TrimRightDrops(s: string)
    requires Tidy(s) && (s != "" ==> s[0] != '-')
    ensures TrimRight(s) == if s != "" && s[|s| - 1] == '-' then s[..|s| - 1] else s
    ensures Clean(TrimRight(s))
  {
    if s != "" && s[|s| - 1] == '-' {
      var t := s[..|s| - 1];
      assert |s| >= 2 && s[|s| - 2] != '-';
      assert t[|t| - 1] == s[|s| - 2];
      SliceIsTidy(s, 0, |s| - 1);
    }
  }

  lemma TrimCut(s: string)
    requires Clean(s) && |s| > MAX_LENGTH
    ensures Trim(s[..MAX_LENGTH]) == TrimRight(s[..MAX_LENGTH]) && Clean(TrimRight(s[..MAX_LENGTH]))
    ensures MAX_LENGTH - 1 <= |TrimRight(s[..MAX_LENGTH])| <= MAX_LENGTH
  {
    SliceIsTidy(s, 0, MAX_LENGTH);
    TrimRightDrops(s[..MAX_LENGTH]);
  }

  lemma SlugifyIsClean(folded: string)
    ensures Clean(SlugifyCatalogName(folded)) && |SlugifyCatalogName(folded)| <= MAX_LENGTH
  {
    SeparateIsTidy(folded);
    CollapseIdle(Separate(folded));
    TrimIsDrop(Separate(folded));
    var normalized := DropEdgeHyphens(Separate(folded));
    if |normalized| > MAX_LENGTH {
      TrimCut(normalized);
    }
  }

  // ---------------------------------------------------------------------------------------
  // What a slug is
  // ---------------------------------------------------------------------------------------

  /** The length of the word a text starts with. */
  function WordLength(s: string): (k: nat)
    ensures k <= |s| && (forall i | 0 <= i < k :: IsWordChar(s[i])) && (k < |s| ==> !IsWordChar(s[k]))
  {
    if s != "" && IsWordChar(s[0]) then 1 + WordLength(s[1..]) else 0
  }

  lemma {:induction false} CleanIsMatched(s: string)
    requires s != "" && Clean(s)
    ensures MatchesSlug(s)
    decreases |s|
  {
    var k := WordLength(s);
    if k < |s| {
      assert s[k] == '-' && k + 1 < |s| && s[k + 1] != '-';
      SliceIsTidy(s, k + 1, |s|);
      assert s[k + 1..] == s[k + 1..|s|];
      CleanIsMatched(s[k + 1..]);
    }
    assert IsWord(s[..k]);
  }

  lemma JoinIsClean(word: string, rest: string)
    requires IsWord(word) && rest != "" && Clean(rest)
    ensures Clean(word + "-" + rest)
  {
    var s, k := word + "-" + rest, |word|;
    forall i | 0 <= i < |s| - 1 ensures !(s[i] == '-' && s[i + 1] == '-') {
      assert i < k ==> s[i] == word[i];
      assert i == k ==> s[i + 1] == rest[0];
      assert i > k ==> s[i] == rest[i - k - 1] && s[i + 1] == rest[i - k];
    }
    assert s[|s| - 1] == rest[|rest| - 1];
  }

  lemma WordIsClean(word: string)
    requires IsWord(word)
    ensures word != "" && Clean(word)
  {
    assert forall i | 0 <= i < |word| :: word[i] != '-';
  }

  lemma {:induction false} MatchedIsClean(s: string)
    requires MatchesSlug(s)
    ensures s != "" && Clean(s)
    decreases |s|
  {
    hide Clean, IsWord;
    var k: nat :| k <= |s| && IsWord(s[..k]) && (k == |s| || (s[k] == '-' && MatchesSlug(s[k + 1..])));
    if k < |s| {
      MatchedIsClean(s[k + 1..]);
      JoinIsClean(s[..k], s[k + 1..]);
      assert s == s[..k] + "-" + s[k + 1..];
    } else {
      assert s[..k] == s;
      WordIsClean(s);
    }
  }

  /** Clean non-empty text is exactly what the slug pattern matches. */
  lemma CleanMatches(s: string)
    ensures MatchesSlug(s) <==> s != "" && Clean(s)
  {
    if MatchesSlug(s) {
      MatchedIsClean(s);
    }
    if s != "" && Clean(s) {
      CleanIsMatched(s);
    }
  }

  lemma CleanIsNormal(s: string)
    requires Clean(s) && s != ""
    ensures NormalizeSlug(s) == Some(s)
  {
    assert forall i | 0 <= i < |s| :: LowerAscii(s)[i] == s[i];
    assert LowerAscii(s) == s;
    CleanMatches(s);
  }

  lemma {:induction false} SeparateKeepsTidy(s: string)
    requires Tidy(s)
    ensures Separate(s) == s
    decreases |s|
  {
    if s != "" {
      SliceIsTidy(s, 1, |s|);
      assert s[1..] == s[1..|s|];
      SeparateKeepsTidy(s[1..]);
      if s[0] == '-' {
        assert |s| >= 2 ==> s[1] != '-';
        assert SkipSeparators(s[1..]) == s[1..];
      }
    }
  }

  /** A derived slug matches the grammar, fits the column, and derives to itself. */
  lemma SlugsAreStable(folded: string)
    ensures var slug := SlugifyCatalogName(folded);
            && |slug| <= MAX_LENGTH
            && (slug != "" ==> MatchesSlug(slug))
            && SlugifyCatalogName(slug) == slug
  {
    hide MatchesSlug, Separate, Collapse;
    var slug := SlugifyCatalogName(folded);
    SlugifyIsClean(folded);
    CleanMatches(slug);
    SeparateKeepsTidy(slug);
    CollapseIdle(slug);
  }

  /** The pattern's own texts, up to the column's length, are exactly the slugs. */
  lemma SlugsAreTheGrammar(s: string)
    ensures SlugifyCatalogName(s) == s && s != "" <==> MatchesSlug(s) && |s| <= 128
  {
    CleanMatches(s);
    SlugifyIsClean(s);
    if Clean(s) {
      SeparateKeepsTidy(s);
      CollapseIdle(s);
    }
  }

  // ---------------------------------------------------------------------------------------
  // What a slug keeps
  // ---------------------------------------------------------------------------------------

  function Letters(s: string): string {
    if s == "" then ""
    else (if IsWordChar(s[0]) then [s[0]] else "") + Letters(s[1..])
  }

  lemma {:induction false} LettersOfJoin(a: string, b: string)
    ensures Letters(a + b) == Letters(a) + Letters(b)
  {
    hide IsWordChar;
    if a == "" {
      assert a + b == b;
    } else {
      var head := if IsWordChar(a[0]) then [a[0]] else "";
      assert (a + b)[0] == a[0] && (a + b)[1..] == a[1..] + b;
      LettersOfJoin(a[1..], b);
      assert head + (Letters(a[1..]) + Letters(b)) == (head + Letters(a[1..])) + Letters(b);
    }
  }

  lemma {:induction false} LettersOfSkip(s: string)
    ensures Letters(SkipSeparators(s)) == Letters(s)
  {
    if s != "" && !IsWordChar(s[0]) {
      LettersOfSkip(s[1..]);
    }
  }

  lemma {:induction false} SeparateKeepsLetters(s: string)
    ensures Letters(Separate(s)) == Letters(s)
    decreases |s|
  {
    if s != "" {
      if IsWordChar(s[0]) {
        SeparateKeepsLetters(s[1..]);
        assert Separate(s)[1..] == Separate(s[1..]);
      } else {
        SeparateKeepsLetters(SkipSeparators(s[1..]));
        LettersOfSkip(s[1..]);
        assert Separate(s)[1..] == Separate(SkipSeparators(s[1..]));
      }
    }
  }

  lemma DropKeepsLetters(s: string)
    ensures Letters(DropEdgeHyphens(s)) == Letters(s)
  {
    var tail := if s != "" && s[0] == '-' then s[1..] else s;
    if tail != "" && tail[|tail| - 1] == '-' {
      assert tail == tail[..|tail| - 1] + "-";
      LettersOfJoin(tail[..|tail| - 1], "-");
    }
  }

  lemma EndingInWordHasLetters(s: string)
    requires s != "" && IsWordChar(s[|s| - 1])
    ensures Letters(s) != ""
  {
    var last := [s[|s| - 1]];
    assert s == s[..|s| - 1] + last;
    LettersOfJoin(s[..|s| - 1], last);
    assert Letters(last) == last + Letters(last[1..]);
  }

  lemma UncutKeepsLetters(folded: string)
    ensures Clean(Uncut(folded)) && Letters(Uncut(folded)) == Letters(folded)
  {
    SeparateIsTidy(folded);
    CollapseIdle(Separate(folded));
    SeparateKeepsLetters(folded);
    DropKeepsLetters(Separate(folded));
    TrimIsDrop(Separate(folded));
  }

  /** A cut loses letters: the text past it ends in one. */
  lemma CutLosesLetters(s: string)
    requires Clean(s) && |s| > MAX_LENGTH
    ensures Letters(TrimRight(s[..MAX_LENGTH])) < Letters(s)
  {
    hide Letters;
    TrimCut(s);
    SliceIsTidy(s, 0, MAX_LENGTH);
    TrimRightDrops(s[..MAX_LENGTH]);
    var slug := TrimRight(s[..MAX_LENGTH]);
    var rest := s[|slug|..];
    assert s == slug + rest && rest[|rest| - 1] == s[|s| - 1];
    LettersOfJoin(slug, rest);
    EndingInWordHasLetters(rest);
  }

  /** A slug keeps the name's letters and digits in order, and all of them exactly when it is not cut. */
  lemma SlugKeepsLetters(folded: string)
    ensures Letters(SlugifyCatalogName(folded)) <= Letters(folded)
    ensures Letters(SlugifyCatalogName(folded)) == Letters(folded) <==> |Uncut(folded)| <= MAX_LENGTH
  {
    hide Letters, Uncut, TrimRight;
    UncutKeepsLetters(folded);
    if |Uncut(folded)| > MAX_LENGTH {
      CutLosesLetters(Uncut(folded));
    }
  }

  // ---------------------------------------------------------------------------------------
  // The words of a slug
  // ---------------------------------------------------------------------------------------

  /** The runs of letters and digits in a text, in order. */
  function Words(s: string): (words: seq<string>)
    ensures forall w | w in words :: IsWord(w)
    decreases |s|
  {
    if s == "" then []
    else if !IsWordChar(s[0]) then Words(s[1..])
    else
      var k := WordLength(s);
      [s[..k]] + Words(s[k..])
  }

  function JoinWords(words: seq<string>): string {
    if words == [] then ""
    else if |words| == 1 then words[0]
    else words[0] + "-" + JoinWords(words[1..])
  }

  function Hyphen(here: bool): string {
    if here then "-" else ""
  }

  predicate Leads(s: string) {
    s != "" && !IsWordChar(s[0])
  }

  predicate Trails(s: string) {
    s != "" && !IsWordChar(s[|s| - 1])
  }

  lemma {:induction false} SeparateWord(s: string, k: nat)
    requires k <= |s| && forall i | 0 <= i < k :: IsWordChar(s[i])
    ensures Separate(s) == s[..k] + Separate(s[k..])
    decreases k
  {
    if k > 0 {
      SeparateWord(s[1..], k - 1);
      assert s[1..][k - 1..] == s[k..] && [s[0]] + s[1..][..k - 1] == s[..k];
    } else {
      assert s[0..] == s;
    }
  }

  lemma {:induction false} SkipKeepsWords(s: string)
    ensures Words(SkipSeparators(s)) == Words(s)
    ensures SkipSeparators(s) != "" ==> SkipSeparators(s)[|SkipSeparators(s)| - 1] == s[|s| - 1]
    ensures SkipSeparators(s) == "" ==> s == "" || Trails(s)
  {
    if Leads(s) {
      SkipKeepsWords(s[1..]);
    }
  }

  lemma JoinFirst(word: string, words: seq<string>)
    requires words != []
    ensures JoinWords([word] + words) == word + "-" + JoinWords(words)
  {
    assert ([word] + words)[1..] == words;
  }

  /** Separating leaves the words, one hyphen between two, and one at an end with separators. */
  lemma {:induction false} SeparateShape(s: string)
    ensures Words(s) == [] ==> Separate(s) == Hyphen(s != "")
    ensures Words(s) != [] ==> Separate(s) == Hyphen(Leads(s)) + JoinWords(Words(s)) + Hyphen(Trails(s))
    decreases |s|
  {
    if s == "" {
    } else if IsWordChar(s[0]) {
      WordShape(s);
    } else {
      GapShape(s);
    }
  }

  lemma {:induction false} WordShape(s: string)
    requires s != "" && IsWordChar(s[0])
    ensures Words(s) != [] && Separate(s) == JoinWords(Words(s)) + Hyphen(Trails(s))
    decreases |s|, 0
  {
    var k := WordLength(s);
    var word, rest := s[..k], s[k..];
    assert Words(s) == [word] + Words(rest);
    SeparateWord(s, k);
    SeparateShape(rest);
    assert rest != "" ==> Leads(rest) && rest[|rest| - 1] == s[|s| - 1];
    hide Separate, WordLength;
    if Words(rest) != [] {
      JoinFirst(word, Words(rest));
    } else {
      assert JoinWords([word]) == word;
      if rest != "" {
        NoWordsTrails(rest);
      }
      assert Trails(s) == (rest != "");
      assert Separate(s) == word + Hyphen(rest != "");
    }
  }

  lemma {:induction false} NoWordsTrails(s: string)
    requires Words(s) == [] && s != ""
    ensures Trails(s)
  {
    if |s| > 1 {
      NoWordsTrails(s[1..]);
    }
  }

  lemma {:induction false} GapShape(s: string)
    requires Leads(s)
    ensures Words(s) == [] ==> Separate(s) == "-"
    ensures Words(s) != [] ==> Separate(s) == "-" + JoinWords(Words(s)) + Hyphen(Trails(s))
    decreases |s|, 0
  {
    var rest := SkipSeparators(s[1..]);
    SkipKeepsWords(s[1..]);
    SkipStops(s[1..]);
    assert Separate(s) == "-" + Separate(rest);
    if rest != "" {
      WordShape(rest);
      assert Trails(rest) == Trails(s);
    }
  }

  lemma {:induction false} JoinEndsInWords(words: seq<string>)
    requires words != [] && forall w | w in words :: IsWord(w)
    ensures var s := JoinWords(words); s != "" && IsWordChar(s[0]) && IsWordChar(s[|s| - 1])
  {
    assert words[0] in words;
    if |words| > 1 {
      assert forall w | w in words[1..] :: w in words;
      JoinEndsInWords(words[1..]);
    }
  }

  /** Before any cut a slug is the name's words joined by single hyphens. */
  lemma SlugIsItsWords(folded: string)
    ensures Uncut(folded) == JoinWords(Words(folded))
  {
    SeparateIsTidy(folded);
    CollapseIdle(Separate(folded));
    SeparateShape(folded);
    if Words(folded) != [] {
      JoinEndsInWords(Words(folded));
      DropsHyphens(Leads(folded), JoinWords(Words(folded)), Trails(folded));
    }
    hide Separate, Collapse, Words;
  }

  lemma DropsHyphens(leads: bool, s: string, trails: bool)
    requires s != "" && IsWordChar(s[0]) && IsWordChar(s[|s| - 1])
    ensures DropEdgeHyphens(Hyphen(leads) + s + Hyphen(trails)) == s
  {
  }
}
