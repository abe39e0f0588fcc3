/** Decimal numerals, as JavaScript's String and Number read and write whole numbers. */
module Decimal {
  predicate IsDigit(c: char) {
    '0' <= c <= '9'
  }

  predicate AllDigits(s: string) {
    forall i | 0 <= i < |s| :: IsDigit(s[i])
  }

  function DigitChar(d: nat): char
    requires d < 10
  {
    '0' + d as char
  }

  function DigitValue(c: char): nat
    requires IsDigit(c)
  {
    (c - '0') as nat
  }

  function Print(n: nat): string {
    if n < 10 then [DigitChar(n)] else Print(n / 10) + [DigitChar(n % 10)]
  }

  function Read(s: string): nat
    requires AllDigits(s)
  {
    if s == [] then 0 else Read(s[..|s| - 1]) * 10 + DigitValue(s[|s| - 1])
  }

  /** `padStart(2, "0")`. */
  function Pad2(n: nat): string {
    var s := Print(n);
    if |s| < 2 then "0" + s else s
  }

  function Pow10(k: nat): nat {
    if k == 0 then 1 else 10 * Pow10(k - 1)
  }

  lemma {:induction false} PrintIsDigits(n: nat)
    ensures AllDigits(Print(n)) && Print(n) != []
  {
    if n >= 10 {
      PrintIsDigits(n / 10);
    }
  }

  lemma {:induction false} ReadPrint(n: nat)
    ensures AllDigits(Print(n)) && Read(Print(n)) == n
  {
    PrintIsDigits(n);
    if n >= 10 {
      ReadPrint(n / 10);
      assert Print(n)[..|Print(n)| - 1] == Print(n / 10);
    } else {
      assert Print(n)[..|Print(n)| - 1] == [];
    }
  }

  lemma {:induction false} PrintLength(n: nat, k: nat)
    requires k >= 1
    ensures |Print(n)| <= k <==> n < Pow10(k)
  {
    if n >= 10 {
      PrintIsDigits(n / 10);
      if k >= 2 {
        PrintLength(n / 10, k - 1);
      }
    } else {
      Pow10Grows(1, k);
    }
  }

  lemma {:induction false} Pow10Grows(j: nat, k: nat)
    requires j <= k
    ensures 1 <= Pow10(j) <= Pow10(k)
    decreases k
  {
    if j < k {
      Pow10Grows(j, k - 1);
    } else if j > 0 {
      Pow10Grows(j - 1, k - 1);
    }
  }

  lemma {:induction false} ReadBound(s: string)
    requires AllDigits(s)
    ensures Read(s) < Pow10(|s|)
  {
    if s != [] {
      ReadBound(s[..|s| - 1]);
    }
  }

  /** Numerals of one length that read the same are the same. */
  lemma {:induction false} ReadInjective(s: string, t: string)
    requires AllDigits(s) && AllDigits(t) && |s| == |t| && Read(s) == Read(t)
    ensures s == t
  {
    if s != [] {
      ReadInjective(s[..|s| - 1], t[..|t| - 1]);
      assert s == s[..|s| - 1] + [s[|s| - 1]];
      assert t == t[..|t| - 1] + [t[|t| - 1]];
    }
  }

  lemma Pad2Reads(n: nat)
    requires n < 100
    ensures |Pad2(n)| == 2 && AllDigits(Pad2(n)) && Read(Pad2(n)) == n
  {
    assert Pow10(1) == 10 && Pow10(2) == 10 * Pow10(1);
    ReadPrint(n);
    PrintIsDigits(n);
    PrintLength(n, 1);
    PrintLength(n, 2);
    if n < 10 {
      assert Pad2(n)[..1] == "0" && Read("0") == 0 by {
        assert "0"[..0] == "";
      }
    }
  }

  /** A numeral has exactly four digits when the number is between 1000 and 9999. */
  lemma FourDigits(n: nat)
    ensures |Print(n)| == 4 <==> 1000 <= n <= 9999
  {
    assert Pow10(1) == 10 && Pow10(2) == 100 && Pow10(3) == 1000 && Pow10(4) == 10_000;
    PrintLength(n, 3);
    PrintLength(n, 4);
  }
}
