/**
 Vietnam mobile numbers: the rule the backend and the form share, `+84` and nine digits stored
 whatever was typed.
 */
module VietnamPhone {
  import opened Options
  import opened Decimal
  import opened WhiteSpace

  /** The `\s` of Go's regexp package. */
  predicate IsRegexpSpace(c: char) {
    c == ' ' || c == '\t' || c == '\n' || c == '\U{000C}' || c == '\r'
  }

  predicate IsSeparator(c: char) {
    c == '.' || c == '(' || c == ')' || c == '+' || c == '-'
  }

  predicate GoCharacters(s: string) {
    forall i | 0 <= i < |s| :: IsDigit(s[i]) || IsRegexpSpace(s[i]) || IsSeparator(s[i])
  }

  predicate JsCharacters(s: string) {
    forall i | 0 <= i < |s| :: IsDigit(s[i]) || IsJsSpace(s[i]) || IsSeparator(s[i])
  }

  predicate MobilePrefix(a: char, b: char) {
    match a
    case '3' => '2' <= b <= '9'
    case '5' => b == '2' || b == '5' || b == '6' || b == '8' || b == '9'
    case '7' => b == '0' || '6' <= b <= '9'
    case '8' => '1' <= b <= '9'
    case '9' => '0' <= b <= '4' || '6' <= b <= '9'
    case _ => false
  }

  predicate IsMobile(s: string) {
    |s| == 9 && AllDigits(s) && MobilePrefix(s[0], s[1])
  }

  /** The text with every non-digit removed. */
  function Digits(s: string): (d: string)
    ensures AllDigits(d)
  {
    if s == "" then "" else (if IsDigit(s[0]) then [s[0]] else "") + Digits(s[1..])
  }

  function TrimZeros(d: string): string {
    if d != "" && d[0] == '0' then TrimZeros(d[1..]) else d
  }

  function NationalOf(digits: string): string {
    var local := if "00" <= digits then digits[2..] else digits;
    var trunk := if "84" <= local && |local| > 9 then local[2..] else local;
    TrimZeros(trunk)
  }

  function NationalNumber(s: string): string {
    NationalOf(Digits(s))
  }

  function GoNormalize(s: string): Option<string> {
    if !GoCharacters(s) then None
    else
      var national := NationalNumber(s);
      if !IsMobile(national) then None else Some("+84" + national)
  }

  function JsNormalize(s: string): Option<string> {
    if !JsCharacters(s) then None
    else
      var national := NationalNumber(s);
      if IsMobile(national) then Some("+84" + national) else None
  }

  /** `replace(/(\d{3})(?=\d)/g, "$1 ")` on a string of digits. */
  function Grouped(national: string): string {
    if |national| > 3 then national[..3] + " " + Grouped(national[3..]) else national
  }

  function Display(stored: string): string {
    match JsNormalize(stored)
    case Some(normalized) => "+84 " + Grouped(normalized[3..])
    case None => stored
  }

  // ---------------------------------------------------------------------------------------
  // Spellings
  // ---------------------------------------------------------------------------------------

  function Zeros(k: nat): (z: string)
    ensures |z| == k && forall i | 0 <= i < k :: z[i] == '0'
  {
    seq(k, _ => '0')
  }

  /** The digits typed for a national number: with trunk zeros, after 84, or after 0084. */
  predicate SpellingWith(digits: string, national: string, k: nat) {
    || digits == Zeros(k) + national
    || digits == "84" + Zeros(k) + national
    || digits == "0084" + Zeros(k) + national
  }

  predicate Spelling(digits: string, national: string) {
    exists k: nat | k <= |digits| :: SpellingWith(digits, national, k)
  }

  lemma {:induction false} TrimmedZeros(d: string) returns (k: nat)
    ensures k <= |d| && d == Zeros(k) + TrimZeros(d)
  {
    k := 0;
    if d != "" && d[0] == '0' {
      var rest := TrimmedZeros(d[1..]);
      k := rest + 1;
      assert Zeros(k) == "0" + Zeros(rest);
      assert d == "0" + d[1..];
    }
  }

  lemma {:induction false} ZerosAreTrimmed(k: nat, national: string)
    requires national != "" && national[0] != '0'
    ensures TrimZeros(Zeros(k) + national) == national
  {
    if k > 0 {
      assert (Zeros(k) + national)[1..] == Zeros(k - 1) + national;
      ZerosAreTrimmed(k - 1, national);
    } else {
      assert Zeros(0) + national == national;
    }
  }

  lemma TrunkIsRead(national: string, k: nat)
    requires IsMobile(national)
    ensures NationalOf(Zeros(k) + national) == national
  {
    var digits := Zeros(k) + national;
    ZerosAreTrimmed(k, national);
    if k >= 2 {
      ZerosAreTrimmed(k - 2, national);
      assert digits[2..] == Zeros(k - 2) + national;
      assert k > 2 ==> digits[2..][0] == '0';
    } else if k == 1 {
      assert digits[0] == '0' && digits[1] == national[0];
    } else {
      assert digits == national;
    }
  }

  lemma CountryIsRead(national: string, k: nat)
    requires IsMobile(national)
    ensures NationalOf("84" + Zeros(k) + national) == NationalOf("0084" + Zeros(k) + national) == national
  {
    var rest := Zeros(k) + national;
    ZerosAreTrimmed(k, national);
    var plain, international := "84" + Zeros(k) + national, "0084" + Zeros(k) + national;
    assert plain == "84" + rest && plain[2..] == rest;
    assert international == "00" + plain && international[2..] == plain;
  }

  lemma SpellingIsRead(digits: string, national: string, k: nat)
    requires IsMobile(national) && SpellingWith(digits, national, k)
    ensures NationalOf(digits) == national
  {
    TrunkIsRead(national, k);
    CountryIsRead(national, k);
  }

  lemma ReadIsSpelling(digits: string)
    requires IsMobile(NationalOf(digits))
    ensures Spelling(digits, NationalOf(digits))
  {
    var local := if "00" <= digits then digits[2..] else digits;
    var trunk := if "84" <= local && |local| > 9 then local[2..] else local;
    var k := TrimmedZeros(trunk);
    var n := NationalOf(digits);
    if trunk == local {
      var all := if "00" <= digits then k + 2 else k;
      assert digits == Zeros(all) + n;
      assert SpellingWith(digits, n, all);
    } else {
      assert local == "84" + Zeros(k) + n;
      assert "00" <= digits ==> digits == "0084" + Zeros(k) + n;
      assert SpellingWith(digits, n, k);
    }
  }

  /** Exactly the spellings of a mobile number reach its stored form, whatever separates the digits. */
  lemma SpellingsReachOneForm(s: string, national: string)
    requires GoCharacters(s) && IsMobile(national)
    ensures GoNormalize(s) == Some("+84" + national) <==> Spelling(Digits(s), national)
    ensures GoNormalize(s) == JsNormalize(s)
  {
    assert JsCharacters(s);
    if Spelling(Digits(s), national) {
      var k: nat :| k <= |Digits(s)| && SpellingWith(Digits(s), national, k);
      SpellingIsRead(Digits(s), national, k);
    }
    if GoNormalize(s) == Some("+84" + national) {
      ReadIsSpelling(Digits(s));
      assert ("+84" + national)[3..] == ("+84" + NationalNumber(s))[3..];
    }
  }

  // ---------------------------------------------------------------------------------------
  // The two rules
  // ---------------------------------------------------------------------------------------

  /** White space to JavaScript that Go's `\s` does not know, such as a no-break space. */
  predicate JsOnlySpace(c: char) {
    IsJsSpace(c) && !IsRegexpSpace(c)
  }

  /** Those spaces, by code point. */
  lemma JsOnlySpacesInFull(c: char)
    ensures JsOnlySpace(c)
       <==> c as int in {0xB, 0xA0, 0x1680, 0x2028, 0x2029, 0x202F, 0x205F, 0x3000, 0xFEFF}
            || 0x2000 <= c as int <= 0x200A
  {
  }

  /** The last nine digits are a mobile number and the digits before them a way to spell it. */
  predicate SpellsMobile(digits: string) {
    && |digits| >= 9 && IsMobile(digits[|digits| - 9..])
    && Spelling(digits, digits[|digits| - 9..])
  }

  lemma SpellingEndsInNumber(digits: string, national: string)
    requires IsMobile(national) && Spelling(digits, national)
    ensures SpellsMobile(digits) && national == digits[|digits| - 9..]
  {
    var k: nat :| k <= |digits| && SpellingWith(digits, national, k);
    assert national == digits[|digits| - 9..];
  }

  lemma MobileIsSpelled(digits: string)
    ensures IsMobile(NationalOf(digits)) <==> SpellsMobile(digits)
  {
    if IsMobile(NationalOf(digits)) {
      ReadIsSpelling(digits);
      SpellingEndsInNumber(digits, NationalOf(digits));
    }
    if SpellsMobile(digits) {
      var k: nat :| k <= |digits| && SpellingWith(digits, digits[|digits| - 9..], k);
      SpellingIsRead(digits, digits[|digits| - 9..], k);
    }
  }

  /**
   The form and the backend part exactly on a spelling of a mobile number that has, among digits,
   separators and spaces, a space only JavaScript knows; there the form takes it and the backend
   does not.
   */
  lemma RulesPartExactly(s: string)
    ensures GoNormalize(s) != JsNormalize(s)
       <==> && JsCharacters(s) && SpellsMobile(Digits(s))
            && exists i | 0 <= i < |s| :: JsOnlySpace(s[i])
    ensures GoNormalize(s) != JsNormalize(s) ==> GoNormalize(s) == None && JsNormalize(s).Some?
  {
    MobileIsSpelled(Digits(s));
    hide SpellsMobile, IsMobile, NationalOf;
    if GoCharacters(s) {
      assert JsCharacters(s);
    } else if JsCharacters(s) {
      var i :| 0 <= i < |s| && !(IsDigit(s[i]) || IsRegexpSpace(s[i]) || IsSeparator(s[i]));
      assert JsOnlySpace(s[i]);
    }
  }

  // ---------------------------------------------------------------------------------------
  // Stored and shown
  // ---------------------------------------------------------------------------------------

  lemma {:induction false} DigitsOfJoin(a: string, b: string)
    ensures Digits(a + b) == Digits(a) + Digits(b)
  {
    if a == "" {
      assert a + b == b;
    } else {
      assert (a + b)[1..] == a[1..] + b;
      DigitsOfJoin(a[1..], b);
    }
  }

  lemma {:induction false} DigitsStay(d: string)
    requires AllDigits(d)
    ensures Digits(d) == d
  {
    if d != "" {
      DigitsStay(d[1..]);
    }
  }

  lemma {:induction false} GroupedDigits(d: string)
    requires AllDigits(d)
    ensures Digits(Grouped(d)) == d && GoCharacters(Grouped(d))
    decreases |d|
  {
    if |d| > 3 {
      GroupedDigits(d[3..]);
      DigitsStay(d[..3]);
      DigitsOfJoin(d[..3] + " ", Grouped(d[3..]));
      DigitsOfJoin(d[..3], " ");
    } else {
      DigitsStay(d);
    }
  }

  lemma CountryThenNational(s: string, national: string)
    requires GoCharacters(s) && IsMobile(national) && Digits(s) == "84" + national
    ensures GoNormalize(s) == JsNormalize(s) == Some("+84" + national)
  {
    assert SpellingWith(Digits(s), national, 0) by {
      assert Zeros(0) == "" && "84" + Zeros(0) + national == "84" + national;
    }
    SpellingsReachOneForm(s, national);
  }

  /** The stored form normalizes to itself. */
  lemma NormalizingIsIdempotent(s: string)
    requires GoNormalize(s).Some?
    ensures GoNormalize(GoNormalize(s).value) == JsNormalize(GoNormalize(s).value) == GoNormalize(s)
  {
    var national := NationalNumber(s);
    DigitsOfJoin("+84", national);
    DigitsStay(national);
    assert Digits("+84") == "84";
    CountryThenNational("+84" + national, national);
  }

  /** What is shown for a stored number normalizes back to it. */
  lemma DisplayNormalizesBack(s: string)
    requires GoNormalize(s).Some?
    ensures GoNormalize(Display(GoNormalize(s).value)) == GoNormalize(s)
    ensures Display(GoNormalize(s).value)
            == "+84 " + NationalNumber(s)[..3] + " " + NationalNumber(s)[3..6] + " " + NationalNumber(s)[6..]
  {
    var stored, national := GoNormalize(s).value, NationalNumber(s);
    NormalizingIsIdempotent(s);
    assert stored[3..] == national;
    GroupedDigits(national);
    DigitsOfJoin("+84 ", Grouped(national));
    assert Digits("+84 ") == "84";
    CountryThenNational("+84 " + Grouped(national), national);
    assert Grouped(national) == national[..3] + " " + (national[3..][..3] + " " + Grouped(national[3..][3..]));
  }

  /** A no-break space after the third digit: taken by the form, refused by the backend. */
  lemma NoBreakSpaceSplitsThem(national: string)
    requires IsMobile(national)
    ensures JsNormalize(national[..3] + "\U{00A0}" + national[3..]) == Some("+84" + national)
    ensures GoNormalize(national[..3] + "\U{00A0}" + national[3..]) == None
  {
    var s := national[..3] + "\U{00A0}" + national[3..];
    assert s[3] == '\U{00A0}';
    DigitsOfJoin(national[..3] + "\U{00A0}", national[3..]);
    DigitsOfJoin(national[..3], "\U{00A0}");
    DigitsStay(national[..3]);
    DigitsStay(national[3..]);
    assert Digits(s) == national[..3] + national[3..] == national == Zeros(0) + national;
    TrunkIsRead(national, 0);
  }

  // ---------------------------------------------------------------------------------------
  // The numbers and the alphabet, in full
  // ---------------------------------------------------------------------------------------

  /** The carrier prefixes, 095 retired. */
  const PREFIXES := {
    "32", "33", "34", "35", "36", "37", "38", "39",
    "52", "55", "56", "58", "59",
    "70", "76", "77", "78", "79",
    "81", "82", "83", "84", "85", "86", "87", "88", "89",
    "90", "91", "92", "93", "94", "96", "97", "98", "99"
  }

  /** A mobile number is one of the thirty-six prefixes and seven digits. */
  lemma MobileMeans(s: string)
    ensures IsMobile(s) <==> |s| == 9 && AllDigits(s) && s[..2] in PREFIXES
  {
    if |s| == 9 && AllDigits(s) {
      assert s[..2] == [s[0], s[1]];
      PrefixMeans(s[0], s[1]);
    }
  }

  lemma PrefixMeans(a: char, b: char)
    ensures MobilePrefix(a, b) <==> [a, b] in PREFIXES
  {
    assert forall p | p in PREFIXES :: |p| == 2 && MobilePrefix(p[0], p[1]);
    assert [a, b][0] == a && [a, b][1] == b;
    if MobilePrefix(a, b) {
      PrefixListed(a, b);
    }
  }

  lemma PrefixListed(a: char, b: char)
    requires MobilePrefix(a, b)
    ensures [a, b] in PREFIXES
  {
  }

  /** Digits, space, point, parentheses, plus and hyphen are characters of a phone to both rules. */
  lemma PhoneAlphabet(s: string)
    requires forall c | c in s :: c in "0123456789 .()+-"
    ensures GoCharacters(s) && JsCharacters(s)
  {
    forall i | 0 <= i < |s| ensures IsDigit(s[i]) || s[i] == ' ' || IsSeparator(s[i]) {
      assert s[i] in "0123456789 .()+-";
    }
  }

  /** And letters are not. */
  lemma LettersAreRefused(s: string, i: nat)
    requires i < |s| && ('a' <= s[i] <= 'z' || 'A' <= s[i] <= 'Z')
    ensures GoNormalize(s) == JsNormalize(s) == None
  {
  }
}
