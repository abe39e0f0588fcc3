/** Dollar amounts typed into a price field, kept as integer cents. */
module Dollars {
  import opened Options
  import opened Decimal
  import opened WhiteSpace

  const MAX_DOLLAR_DIGITS := 12
  /** The first amount with too many digits to type: 10^14 cents. */
  const LIMIT := 100_000_000_000_000

  /** The characters of `s` other than `c`: `replaceAll(c, "")`. */
  function Without(s: string, c: char): string {
    if s == [] then []
    else if s[0] == c then Without(s[1..], c)
    else [s[0]] + Without(s[1..], c)
  }

  lemma {:induction false} WithoutNothing(s: string, c: char)
    requires c !in s
    ensures Without(s, c) == s
  {
    if s != [] {
      WithoutNothing(s[1..], c);
    }
  }

  function Strip(raw: string): string {
    var trimmed := JsTrim(raw);
    Without(if trimmed != [] && trimmed[0] == '$' then trimmed[1..] else trimmed, ',')
  }

  /** `s` is `k` digits, then nothing or a point and at most two decimals. */
  predicate AmountAt(s: string, k: nat) {
    && 1 <= k <= MAX_DOLLAR_DIGITS && k <= |s| && AllDigits(s[..k])
    && (k == |s| || (s[k] == '.' && |s| - k <= 3 && AllDigits(s[k + 1..])))
  }

  /** The pattern DOLLAR_INPUT. */
  predicate IsAmount(s: string) {
    exists k: nat | k <= |s| :: AmountAt(s, k)
  }

  /** The pattern DOLLAR_DRAFT. */
  predicate IsDraft(s: string) {
    s == "" || IsAmount(s)
  }

  function AcceptDraft(raw: string): Option<string> {
    var draft := Strip(raw);
    if IsDraft(draft) then Some(draft) else None
  }

  /** Where the first point is, or the length when there is none. */
  function Point(s: string): nat
    ensures Point(s) <= |s|
  {
    if s == [] || s[0] == '.' then 0 else 1 + Point(s[1..])
  }

  /** The first two pieces of `split(".")`, the second empty when absent. */
  function Pieces(s: string): (string, string) {
    var p := Point(s);
    if p == |s| then (s, "")
    else
      var rest := s[p + 1..];
      (s[..p], rest[..Point(rest)])
  }

  /** `padEnd(2, "0")`. */
  function PadEnd2(s: string): string {
    if |s| == 0 then "00" else if |s| == 1 then s + "0" else s
  }

  lemma {:induction false} PointOf(s: string, k: nat)
    requires k <= |s| && AllDigits(s[..k]) && (k == |s| || s[k] == '.')
    ensures Point(s) == k
  {
    if k > 0 {
      assert s[..k][0] == s[0];
      assert s[1..][..k - 1] == s[..k][1..];
      PointOf(s[1..], k - 1);
    }
  }

  lemma AmountPieces(s: string, k: nat)
    requires AmountAt(s, k)
    ensures Pieces(s) == (s[..k], if k == |s| then "" else s[k + 1..])
    ensures AllDigits(Pieces(s).0) && |Pieces(s).0| <= MAX_DOLLAR_DIGITS
    ensures AllDigits(Pieces(s).1) && |Pieces(s).1| <= 2
  {
    PointOf(s, k);
    if k < |s| {
      var rest := s[k + 1..];
      assert rest[..|rest|] == rest;
      PointOf(rest, |rest|);
    } else {
      assert s[..k] == s;
    }
  }

  predicate Readable(s: string) {
    AllDigits(Pieces(s).0) && AllDigits(Pieces(s).1)
  }

  lemma AmountReads(s: string)
    requires IsAmount(s)
    ensures Readable(s)
  {
    var k: nat :| k <= |s| && AmountAt(s, k);
    AmountPieces(s, k);
  }

  function Cents(s: string): nat
    requires Readable(s)
  {
    Read(Pieces(s).0) * 100 + Read(PadEnd2(Pieces(s).1))
  }

  function ParseInput(raw: string): Option<nat> {
    var trimmed := Strip(raw);
    if IsAmount(trimmed) then AmountReads(trimmed); Some(Cents(trimmed)) else None
  }

  function FormatInput(cents: int): string {
    var absolute := if cents < 0 then -cents else cents;
    (if cents < 0 then "-" else "") + Print(absolute / 100) + "." + Pad2(absolute % 100)
  }

  // ---------------------------------------------------------------------------------------
  // Print and parse
  // ---------------------------------------------------------------------------------------

  /** Text with nothing to strip. */
  predicate Bare(s: string) {
    forall i | 0 <= i < |s| :: IsDigit(s[i]) || s[i] == '.' || s[i] == '-'
  }

  lemma BareIsKept(s: string)
    requires Bare(s)
    ensures Strip(s) == s
  {
    WithoutNothing(s, ',');
  }

  lemma AmountIsBare(s: string)
    requires IsDraft(s)
    ensures Bare(s)
  {
    if s != "" {
      var k: nat :| k <= |s| && AmountAt(s, k);
      forall i | 0 <= i < |s| ensures IsDigit(s[i]) || s[i] == '.' {
        assert i < k ==> s[i] == s[..k][i];
        assert i > k ==> s[i] == s[k + 1..][i - k - 1];
      }
    }
  }

  lemma AmountCharacters(s: string, k: nat)
    requires AmountAt(s, k)
    ensures forall i | 0 <= i < |s| && i != k :: IsDigit(s[i])
    ensures k < |s| ==> s[k] == '.'
  {
    forall i | 0 <= i < |s| && i != k ensures IsDigit(s[i]) {
      assert if i < k then s[i] == s[..k][i] else s[i] == s[k + 1..][i - k - 1];
    }
  }

  lemma PointIsK(s: string, k: nat)
    requires AmountAt(s, k)
    ensures Point(s) == k
  {
    PointOf(s, k);
  }

  /** Digits, a point and digits are an amount with one to twelve before the point and at most two after. */
  lemma PointedAmount(dollars: string, decimals: string)
    requires AllDigits(dollars) && AllDigits(decimals)
    ensures Bare(dollars + "." + decimals)
    ensures IsAmount(dollars + "." + decimals) <==> 1 <= |dollars| <= MAX_DOLLAR_DIGITS && |decimals| <= 2
    ensures IsAmount(dollars + "." + decimals) ==> Pieces(dollars + "." + decimals) == (dollars, decimals)
  {
    var s, n := dollars + "." + decimals, |dollars|;
    assert s[..n] == dollars && s[n] == '.' && s[n + 1..] == decimals;
    PointOf(s, n);
    if 1 <= n <= MAX_DOLLAR_DIGITS && |decimals| <= 2 {
      assert AmountAt(s, n);
    }
    if IsAmount(s) {
      var k: nat :| k <= |s| && AmountAt(s, k);
      PointIsK(s, k);
      AmountPieces(s, k);
    }
  }

  /** Digits alone are an amount when there are one to twelve. */
  lemma WholeAmount(dollars: string)
    requires AllDigits(dollars)
    ensures Bare(dollars) && (IsAmount(dollars) <==> 1 <= |dollars| <= MAX_DOLLAR_DIGITS)
    ensures IsAmount(dollars) ==> Pieces(dollars) == (dollars, "")
  {
    var n := |dollars|;
    assert dollars[..n] == dollars;
    PointOf(dollars, n);
    if 1 <= n <= MAX_DOLLAR_DIGITS {
      assert AmountAt(dollars, n);
    }
    if IsAmount(dollars) {
      var k: nat :| k <= |dollars| && AmountAt(dollars, k);
      PointIsK(dollars, k);
      AmountPieces(dollars, k);
    }
  }

  lemma TwelveDigits(n: nat)
    ensures |Print(n)| <= MAX_DOLLAR_DIGITS <==> n < LIMIT / 100
  {
    TenToTwelve();
    PrintLength(n, MAX_DOLLAR_DIGITS);
  }

  /** Parsing undoes formatting exactly for amounts from 0 up to the limit. */
  lemma ParseUndoesFormat(cents: int)
    ensures ParseInput(FormatInput(cents)) == if 0 <= cents < LIMIT then Some(cents) else None
  {
    var s := FormatInput(cents);
    var absolute := if cents < 0 then -cents else cents;
    PrintIsDigits(absolute / 100);
    Pad2Reads(absolute % 100);
    PointedAmount(Print(absolute / 100), Pad2(absolute % 100));
    BareIsKept(s);
    if cents < 0 {
      assert s[0] == '-';
      forall k: nat | k <= |s| ensures !AmountAt(s, k) {
        assert k >= 1 ==> s[..k][0] == '-';
      }
    } else {
      assert s == Print(absolute / 100) + "." + Pad2(absolute % 100);
      ReadPrint(absolute / 100);
      TwelveDigits(absolute / 100);
    }
  }

  lemma AmountBound(s: string)
    requires IsAmount(s) && Readable(s)
    ensures Cents(s) < LIMIT
  {
    var k: nat :| k <= |s| && AmountAt(s, k);
    AmountPieces(s, k);
    var dollars, decimals := Pieces(s).0, PadEnd2(Pieces(s).1);
    assert AllDigits(decimals) && |decimals| == 2;
    ReadBound(dollars);
    ReadBound(decimals);
    Pow10Grows(|dollars|, MAX_DOLLAR_DIGITS);
    TenToTwelve();
  }

  lemma TenToTwelve()
    ensures Pow10(2) == 100 && Pow10(12) == LIMIT / 100
  {
    assert Pow10(3) == 1000 && Pow10(6) == 1000 * Pow10(3) && Pow10(9) == 1000 * Pow10(6);
    assert Pow10(12) == 1000 * Pow10(9);
  }

  /** Every non-empty draft the field keeps is an amount, and printing it keeps its cents. */
  lemma DraftsSurvive(raw: string)
    requires AcceptDraft(raw).Some? && AcceptDraft(raw).value != ""
    ensures ParseInput(raw).Some? && ParseInput(AcceptDraft(raw).value) == ParseInput(raw)
    ensures AcceptDraft(AcceptDraft(raw).value) == AcceptDraft(raw)
    ensures ParseInput(FormatInput(ParseInput(raw).value)) == ParseInput(raw)
  {
    var draft := AcceptDraft(raw).value;
    AmountIsBare(draft);
    BareIsKept(draft);
    AmountReads(draft);
    AmountBound(draft);
    ParseUndoesFormat(ParseInput(raw).value);
  }

  /** The field keeps exactly what parses, and the empty text. */
  lemma FieldKeepsWhatParses(raw: string)
    ensures AcceptDraft(raw).Some? <==> ParseInput(raw).Some? || Strip(raw) == ""
    ensures ParseInput(raw).Some? ==> AcceptDraft(FormatInput(ParseInput(raw).value)).Some?
  {
    if ParseInput(raw).Some? {
      DraftsSurvive(raw);
      assert ParseInput(FormatInput(ParseInput(raw).value)).Some?;
    }
  }

  // ---------------------------------------------------------------------------------------
  // Amounts as typed
  // ---------------------------------------------------------------------------------------

  /** The cents of at most two decimals: one alone counts tens. */
  function Hundredths(decimals: string): nat
    requires AllDigits(decimals) && |decimals| <= 2
  {
    if |decimals| == 2 then Read(decimals) else if |decimals| == 1 then 10 * Read(decimals) else 0
  }

  lemma ParsedPieces(s: string, dollars: string, decimals: string)
    requires Bare(s) && AllDigits(dollars) && AllDigits(decimals) && |decimals| <= 2
    requires IsAmount(s) ==> Pieces(s) == (dollars, decimals)
    ensures IsAmount(s) ==>
              ParseInput(s) == Some(Read(dollars) * 100 + Hundredths(decimals))
    ensures !IsAmount(s) ==> ParseInput(s) == None
  {
    BareIsKept(s);
    PaddedDecimals(decimals);
    if IsAmount(s) {
      AmountReads(s);
      hide IsAmount, Pieces, Strip, Read, PadEnd2, Bare, AllDigits;
      assert ParseInput(s) == Some(Cents(s));
    }
  }

  lemma NotAnAmount(s: string)
    requires Bare(s) && !IsAmount(s)
    ensures ParseInput(s) == None
  {
    BareIsKept(s);
  }

  /** Digits, a point and digits: an amount with one to twelve before the point and at most two after. */
  lemma PointedInput(dollars: string, decimals: string)
    requires AllDigits(dollars) && AllDigits(decimals)
    ensures ParseInput(dollars + "." + decimals)
         == if 1 <= |dollars| <= 12 && |decimals| <= 2
            then Some(Read(dollars) * 100 + Hundredths(decimals)) else None
  {
    PointedAmount(dollars, decimals);
    hide IsAmount, Pieces, Read, Bare, ParseInput, Hundredths, AllDigits;
    if |decimals| <= 2 {
      ParsedPieces(dollars + "." + decimals, dollars, decimals);
    } else {
      NotAnAmount(dollars + "." + decimals);
    }
  }

  lemma PaddedDecimals(decimals: string)
    requires AllDigits(decimals) && |decimals| <= 2
    ensures AllDigits(PadEnd2(decimals))
    ensures Read(PadEnd2(decimals)) == Hundredths(decimals)
  {
    if |decimals| == 1 {
      assert (decimals + "0")[..1] == decimals;
    } else if |decimals| == 0 {
      assert "00"[..1] == "0" && "0"[..0] == "";
    }
  }

  /** Digits alone: one to twelve of them, in whole dollars. */
  lemma WholeInput(dollars: string)
    requires AllDigits(dollars)
    ensures ParseInput(dollars) == if 1 <= |dollars| <= 12 then Some(Read(dollars) * 100) else None
  {
    WholeAmount(dollars);
    hide IsAmount, Pieces, Read, Bare, ParseInput, AllDigits;
    ParsedWhole(dollars);
  }

  lemma ParsedWhole(s: string)
    requires Bare(s) && AllDigits(s) && (IsAmount(s) ==> Pieces(s) == (s, ""))
    ensures ParseInput(s) == if IsAmount(s) then Some(Read(s) * 100) else None
  {
    hide IsAmount, Pieces, Read, Bare, ParseInput;
    NoHundredths("");
    ParsedPieces(s, s, "");
  }

  lemma NoHundredths(none: string)
    requires none == ""
    ensures AllDigits(none) && Hundredths(none) == 0
  {
  }

  /** Any other character left, or a second point, and the text is no amount. */
  lemma OtherInput(raw: string, i: nat, j: nat)
    requires i < |Strip(raw)|
    requires (!IsDigit(Strip(raw)[i]) && Strip(raw)[i] != '.')
             || (i < j < |Strip(raw)| && Strip(raw)[i] == Strip(raw)[j] == '.')
    ensures ParseInput(raw) == None
  {
    var s := Strip(raw);
    forall k: nat | k <= |s| ensures !AmountAt(s, k) {
      if AmountAt(s, k) {
        AmountCharacters(s, k);
      }
    }
  }

  predicate Blank(s: string) {
    forall c | c in s :: IsJsSpace(c)
  }

  lemma {:induction false} TrimStartBlank(blank: string, s: string)
    requires Blank(blank) && (s != "" ==> !IsJsSpace(s[0]))
    ensures TrimStart(blank + s) == s
  {
    if blank == "" {
      assert blank + s == s;
    } else {
      assert blank[0] in blank && (blank + s)[1..] == blank[1..] + s;
      assert forall c | c in blank[1..] :: c in blank;
      TrimStartBlank(blank[1..], s);
    }
  }

  lemma {:induction false} TrimEndBlank(s: string, blank: string)
    requires Blank(blank) && (s != "" ==> !IsJsSpace(s[|s| - 1]))
    ensures TrimEnd(s + blank) == s
  {
    if blank == "" {
      assert s + blank == s;
    } else {
      var n := |blank| - 1;
      assert blank[n] in blank && (s + blank)[..|s + blank| - 1] == s + blank[..n];
      assert forall c | c in blank[..n] :: c in blank;
      TrimEndBlank(s, blank[..n]);
    }
  }

  /** Surrounding space, one leading dollar sign and every comma are dropped, and nothing else. */
  lemma DecorationIsDropped(left: string, amount: string, right: string)
    requires Blank(left) && Blank(right)
    requires amount != "" && amount[0] != '$' && !IsJsSpace(amount[0]) && !IsJsSpace(amount[|amount| - 1])
    ensures Strip(left + ("$" + amount) + right) == Strip(left + amount + right) == Without(amount, ',')
  {
    Trims(left, "$" + amount, right);
    Trims(left, amount, right);
  }

  lemma Trims(left: string, s: string, right: string)
    requires Blank(left) && Blank(right) && s != "" && !IsJsSpace(s[0]) && !IsJsSpace(s[|s| - 1])
    ensures JsTrim(left + s + right) == s
  {
    assert left + s + right == left + (s + right);
    TrimStartBlank(left, s + right);
    TrimEndBlank(s, right);
  }

  lemma {:induction false} WithoutOfJoin(a: string, b: string, c: char)
    ensures Without(a + b, c) == Without(a, c) + Without(b, c) && c !in Without(a, c)
  {
    if a == "" {
      assert a + b == b;
    } else {
      assert (a + b)[1..] == a[1..] + b;
      WithoutOfJoin(a[1..], b, c);
    }
  }
}
