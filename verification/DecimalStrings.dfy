/** Decimal numerals, as the program prints and reads integers. */
module DecimalStrings {

  function Digit(n: nat): char
    requires n < 10
  {
    "0123456789"[n]
  }

  predicate IsDigit(c: char) {
    '0' <= c <= '9'
  }

  function DigitValue(c: char): nat
    requires IsDigit(c)
  {
    c as int - '0' as int
  }

  predicate AllDigits(s: string) {
    forall i :: 0 <= i < |s| ==> IsDigit(s[i])
  }

  /** `toString(10)` of a non-negative integer. */
  function NatToString(n: nat): (s: string)
    ensures |s| > 0 && AllDigits(s)
    ensures n > 0 ==> s[0] != '0'
  {
    if n < 10 then [Digit(n)] else NatToString(n / 10) + [Digit(n % 10)]
  }

  /** The number a digit string denotes, leading zeros allowed. */
  function StringToNat(s: string): nat
    requires AllDigits(s)
  {
    if s == "" then 0 else 10 * StringToNat(s[..|s| - 1]) + DigitValue(s[|s| - 1])
  }

  lemma {:induction false} ReadPrinted(n: nat)
    ensures StringToNat(NatToString(n)) == n
  {
    var s := NatToString(n);
    if n >= 10 {
      ReadPrinted(n / 10);
      assert s[..|s| - 1] == NatToString(n / 10);
    } else {
      assert s[..0] == "";
    }
  }

  /** Printing what was read gives the numeral back exactly when it has no leading zero. */
  lemma {:induction false} PrintRead(s: string)
    requires AllDigits(s) && s != ""
    ensures NatToString(StringToNat(s)) == s <==> (|s| == 1 || s[0] != '0')
    decreases |s|
  {
    var front := s[..|s| - 1];
    var d := DigitValue(s[|s| - 1]);
    if front == "" {
      assert s == [Digit(d)];
      assert StringToNat(s[..0]) == 0;
    } else {
      PrintRead(front);
      if s[0] != '0' {
        Positive(front);
        assert StringToNat(s) / 10 == StringToNat(front) && StringToNat(s) % 10 == d;
        assert s == front + [Digit(d)];
      }
    }
  }

  lemma {:induction false} Positive(s: string)
    requires AllDigits(s) && s != "" && s[0] != '0'
    ensures StringToNat(s) > 0
  {
    if |s| > 1 {
      Positive(s[..|s| - 1]);
    }
  }

  lemma PrintInjective(a: nat, b: nat)
    requires NatToString(a) == NatToString(b)
    ensures a == b
  {
    ReadPrinted(a);
    ReadPrinted(b);
  }
}
