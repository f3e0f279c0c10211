/** Decimal printing and reading of integers, as Go's strconv and math/big do them in base 10. */
module Decimals {
  import opened Types

  function Digit(d: nat): char
    requires d < 10
  {
    ['0', '1', '2', '3', '4', '5', '6', '7', '8', '9'][d]
  }

  /** The digits of a number that is not negative. */
  function Decimal(n: nat): (s: string)
    ensures |s| > 0
  {
    if n < 10 then [Digit(n)] else Decimal(n / 10) + [Digit(n % 10)]
  }

  /** The number with its sign, as big.Int prints it. */
  function Print(n: int): string {
    if n < 0 then "-" + Decimal(-n) else Decimal(n)
  }

  predicate IsDigits(s: string) {
    forall i | 0 <= i < |s| :: '0' <= s[i] <= '9'
  }

  function DigitsValue(s: string): nat
    requires IsDigits(s)
  {
    if s == "" then 0 else DigitsValue(s[..|s| - 1]) * 10 + (s[|s| - 1] - '0') as nat
  }

  predicate Negative(s: string) {
    |s| > 0 && s[0] == '-'
  }

  /** The string without its optional sign. */
  function Unsigned(s: string): string {
    if |s| > 0 && (s[0] == '-' || s[0] == '+') then s[1..] else s
  }

  function Signed(negative: bool, n: nat): int {
    if negative then 0 - n else n
  }

  /** big.Int's SetString in base 10: an optional sign and at least one digit. */
  function ParseBigInt(s: string): Option<int> {
    if Unsigned(s) == "" || !IsDigits(Unsigned(s)) then None
    else Some(Signed(Negative(s), DigitsValue(Unsigned(s))))
  }

  lemma {:induction false} DecimalIsDigits(n: nat)
    ensures IsDigits(Decimal(n)) && DigitsValue(Decimal(n)) == n
  {
    var s := Decimal(n);
    if n >= 10 {
      DecimalIsDigits(n / 10);
      assert s[..|s| - 1] == Decimal(n / 10);
    } else {
      assert s[..|s| - 1] == "";
    }
  }

  lemma ParseDigits(s: string)
    requires s != "" && IsDigits(s)
    ensures ParseBigInt(s) == Some(DigitsValue(s))
    ensures ParseBigInt("-" + s) == Some(0 - DigitsValue(s)) && ParseBigInt("+" + s) == Some(DigitsValue(s))
  {
    assert '0' <= s[0] <= '9';
    var minus, plus := "-" + s, "+" + s;
    assert minus[0] == '-' && minus[1..] == s;
    assert plus[0] == '+' && plus[1..] == s;
  }

  /** An optional sign and at least one digit. */
  ghost predicate IsNumeral(s: string, sign: string, digits: string) {
    && (sign == "" || sign == "-" || sign == "+")
    && digits != "" && (forall i | 0 <= i < |digits| :: '0' <= digits[i] <= '9')
    && s == sign + digits
  }

  /** Exactly the strings that are a sign, or none, and digits are read, and the sign is obeyed; no other string is. */
  lemma ParseIff(s: string)
    ensures ParseBigInt(s).Some? <==> exists sign, digits :: IsNumeral(s, sign, digits)
    ensures forall sign, digits | IsNumeral(s, sign, digits) ::
              ParseBigInt(s) == Some(if sign == "-" then 0 - DigitsValue(digits) else DigitsValue(digits))
  {
    forall sign, digits | IsNumeral(s, sign, digits)
      ensures ParseBigInt(s) == Some(if sign == "-" then 0 - DigitsValue(digits) else DigitsValue(digits))
    {
      assert IsDigits(digits);
      ParseDigits(digits);
      assert sign == "" ==> s == digits;
    }
    if ParseBigInt(s).Some? {
      var sign := s[..|s| - |Unsigned(s)|];
      assert sign == "" || sign == [s[0]];
      assert IsNumeral(s, sign, Unsigned(s));
    }
  }

  /** Leading zeros change nothing. */
  lemma {:induction false} LeadingZero(digits: string)
    requires IsDigits(digits)
    ensures IsDigits("0" + digits) && DigitsValue("0" + digits) == DigitsValue(digits)
  {
    var longer := "0" + digits;
    if digits == "" {
      assert longer[..0] == "";
    } else {
      assert longer[..|longer| - 1] == "0" + digits[..|digits| - 1];
      LeadingZero(digits[..|digits| - 1]);
    }
  }

  /** Reading undoes printing, for every integer. */
  lemma ParseUndoesPrint(n: int)
    ensures ParseBigInt(Print(n)) == Some(n)
  {
    var m := if n < 0 then -n else n;
    DecimalIsDigits(m);
    ParseDigits(Decimal(m));
  }
}
