/**
 * The amount field's helpers (lib/data.ts:31-47): `formatCurrencyInput`, which keeps
 * the digits a user typed and writes their value with thousands separators, and
 * `parseCurrencyValue`, which reads such a text back as a number.
 */
module Currency {
  import opened Wrappers
  import opened JsText

  /** The thousands separator of Colombian Spanish. */
  const GroupSeparator: char := '.'

  /** `toLocaleString('es-CO')` of a number's decimal digits: a separator before every three digits counted from the right. */
  function Group(digits: string): (r: string)
    ensures |r| >= |digits|
    decreases |digits|
  {
    if |digits| <= 3 then digits
    else Group(digits[..|digits| - 3]) + [GroupSeparator] + digits[|digits| - 3..]
  }

  /** `parseCurrencyValue`: the number the digits of `s` spell, 0 when there are none. */
  function ParseCurrencyValue(s: string): (v: int)
    ensures v >= 0
    ensures DigitsOf(s) == [] ==> v == 0
    ensures DigitsOf(s) != [] ==> v == ValueOf(DigitsOf(s), 10) && ParseInt(DigitsOf(s)) == Some(v)
  {
    var digits := DigitsOf(s);
    if digits == [] then 0
    else
      ParseIntOfDigits(digits);
      ValueOf(digits, 10)
  }

  /** `formatCurrencyInput`: empty when `s` has no digit, otherwise the grouped decimal text of their value. */
  function FormatCurrencyInput(s: string): (r: string)
    ensures DigitsOf(s) == [] <==> r == []
  {
    var digits := DigitsOf(s);
    if digits == [] then ""
    else Group(NatToDecimal(ValueOf(digits, 10)))
  }

  /** Grouping only inserts separators: the digits of a grouped text are the digits grouped. */
  lemma {:induction false} DigitsOfGroup(digits: string)
    requires AllRadixDigits(digits, 10)
    ensures DigitsOf(Group(digits)) == digits
    decreases |digits|
  {
    if |digits| <= 3 {
      DigitsOfDigits(digits);
    } else {
      var front, back := digits[..|digits| - 3], digits[|digits| - 3..];
      assert AllRadixDigits(front, 10);
      assert AllRadixDigits(back, 10);
      DigitsOfGroup(front);
      DigitsOfConcat(Group(front) + [GroupSeparator], back);
      DigitsOfConcat(Group(front), [GroupSeparator]);
      assert DigitsOf([GroupSeparator]) == [] by {
        assert [GroupSeparator][1..] == [];
      }
      DigitsOfDigits(back);
      assert front + back == digits;
    }
  }

  /** The digits of a formatted amount are the decimal digits of its value. */
  lemma FormattedDigits(s: string)
    requires DigitsOf(s) != []
    ensures DigitsOf(FormatCurrencyInput(s)) == NatToDecimal(ValueOf(DigitsOf(s), 10))
  {
    DigitsOfGroup(NatToDecimal(ValueOf(DigitsOf(s), 10)));
  }

  /** Reading back a formatted amount gives the amount typed. */
  lemma FormatRoundTrip(s: string)
    ensures ParseCurrencyValue(FormatCurrencyInput(s)) == ParseCurrencyValue(s)
  {
    if DigitsOf(s) != [] {
      FormattedDigits(s);
      ValueOfNatToDecimal(ValueOf(DigitsOf(s), 10));
    }
  }

  /** Formatting an already formatted amount changes nothing. */
  lemma FormatIdempotent(s: string)
    ensures FormatCurrencyInput(FormatCurrencyInput(s)) == FormatCurrencyInput(s)
  {
    if DigitsOf(s) != [] {
      FormattedDigits(s);
      ValueOfNatToDecimal(ValueOf(DigitsOf(s), 10));
    }
  }

  /** Only the digits matter: any other character typed, a '$' or a separator, is ignored. */
  lemma OnlyDigitsMatter(s: string, t: string)
    requires DigitsOf(s) == DigitsOf(t)
    ensures ParseCurrencyValue(s) == ParseCurrencyValue(t)
    ensures FormatCurrencyInput(s) == FormatCurrencyInput(t)
  {
  }

  /** A leading zero typed in front of an amount changes neither its value nor its formatting. */
  lemma LeadingZeroIgnored(s: string)
    requires DigitsOf(s) != []
    ensures ParseCurrencyValue("0" + s) == ParseCurrencyValue(s)
    ensures FormatCurrencyInput("0" + s) == FormatCurrencyInput(s)
  {
    DigitsOfConcat("0", s);
    assert DigitsOf("0") == "0" by {
      assert "0"[1..] == [];
    }
    ValueOfLeadingZero(DigitsOf(s));
  }

  /** Grouping a seven-digit amount: "1234567" is written "1.234.567". */
  lemma GroupSevenDigits()
    ensures Group("1234567") == "1.234.567"
  {
    assert "1234567"[..4] == "1234" && "1234567"[4..] == "567";
    assert "1234"[..1] == "1" && "1234"[1..] == "234";
  }
}
