/**
 * The JavaScript text conversions the request handlers and the currency helpers rely
 * on: `parseInt` with no radix (section 19.2.5 of ECMA-262), the decimal `String(n)`
 * of an integer, and the digit filter `s.replace(/\D/g, '')`.
 */
module JsText {
  import opened Wrappers

  predicate IsDecimalDigit(c: char) {
    '0' <= c <= '9'
  }

  /** StrWhiteSpaceChar: WhiteSpace (tab, vertical tab, form feed, space, no-break space, BOM, the Zs spaces) and LineTerminator. */
  predicate IsJsWhitespace(c: char) {
    || c == '\t' || c == '\U{B}' || c == '\U{C}' || c == ' ' || c == '\U{A0}' || c == '\U{FEFF}'
    || c == '\n' || c == '\r' || c == '\U{2028}' || c == '\U{2029}'
    || c == '\U{1680}' || ('\U{2000}' <= c <= '\U{200A}') || c == '\U{202F}' || c == '\U{205F}' || c == '\U{3000}'
  }

  /** Drops the leading white space. */
  function TrimStart(s: string): (r: string)
    ensures |r| <= |s|
    ensures r != [] ==> !IsJsWhitespace(r[0])
  {
    if s != [] && IsJsWhitespace(s[0]) then TrimStart(s[1..]) else s
  }

  /** `TrimStart` drops a prefix of `s`, and everything it drops is white space. */
  lemma {:induction false} TrimStartDropsSpace(s: string)
    ensures TrimStart(s) == s[|s| - |TrimStart(s)|..]
    ensures forall i | 0 <= i < |s| - |TrimStart(s)| :: IsJsWhitespace(s[i])
  {
    if s != [] && IsJsWhitespace(s[0]) {
      TrimStartDropsSpace(s[1..]);
      assert s[1..][|s| - 1 - |TrimStart(s)|..] == s[|s| - |TrimStart(s)|..];
      forall i | 1 <= i < |s| - |TrimStart(s)| ensures IsJsWhitespace(s[i]) {
        assert s[1..][i - 1] == s[i];
      }
    }
  }

  /** The value of `c` as a digit of radix up to 36, or -1 when it is none. */
  function DigitValue(c: char): (d: int)
    ensures -1 <= d < 36
    ensures IsDecimalDigit(c) <==> 0 <= d < 10
  {
    if '0' <= c <= '9' then c as int - '0' as int
    else if 'a' <= c <= 'z' then c as int - 'a' as int + 10
    else if 'A' <= c <= 'Z' then c as int - 'A' as int + 10
    else -1
  }

  predicate IsRadixDigit(c: char, radix: nat) {
    0 <= DigitValue(c) < radix
  }

  predicate AllRadixDigits(s: string, radix: nat) {
    forall i | 0 <= i < |s| :: IsRadixDigit(s[i], radix)
  }

  /** The longest prefix of `s` made of radix digits. */
  function DigitPrefix(s: string, radix: nat): (r: string)
    ensures |r| <= |s|
    ensures AllRadixDigits(r, radix)
  {
    if s != [] && IsRadixDigit(s[0], radix) then [s[0]] + DigitPrefix(s[1..], radix) else []
  }

  /** `DigitPrefix` is a prefix of `s`, and the longest one made of radix digits. */
  lemma {:induction false} DigitPrefixIsLongest(s: string, radix: nat)
    ensures DigitPrefix(s, radix) == s[..|DigitPrefix(s, radix)|]
    ensures |DigitPrefix(s, radix)| < |s| ==> !IsRadixDigit(s[|DigitPrefix(s, radix)|], radix)
  {
    if s != [] && IsRadixDigit(s[0], radix) {
      DigitPrefixIsLongest(s[1..], radix);
      var r := DigitPrefix(s[1..], radix);
      assert [s[0]] + s[1..][..|r|] == s[..|r| + 1];
      if |r| < |s| - 1 {
        assert s[1..][|r|] == s[|r| + 1];
      }
    }
  }

  /** The number a string of radix digits denotes, most significant digit first. */
  function ValueOf(digits: string, radix: nat): (v: nat)
    requires AllRadixDigits(digits, radix)
    decreases |digits|
  {
    if digits == [] then 0
    else ValueOf(digits[..|digits| - 1], radix) * radix + DigitValue(digits[|digits| - 1])
  }

  /** The number the longest run of radix digits at the head of `s` denotes; none is NaN. */
  function LeadingNumber(s: string, radix: nat): (r: Option<int>)
    ensures r.Some? ==> r.value >= 0
  {
    var z := DigitPrefix(s, radix);
    if z == [] then None else Some(ValueOf(z, radix))
  }

  /** The unsigned part: a `0x`/`0X` prefix switches to radix 16. */
  function ParseUnsigned(u: string): (r: Option<int>)
    ensures r.Some? ==> r.value >= 0
  {
    if |u| >= 2 && u[0] == '0' && (u[1] == 'x' || u[1] == 'X') then LeadingNumber(u[2..], 16)
    else LeadingNumber(u, 10)
  }

  /**
   * `parseInt(s)`: skip leading white space, take an optional sign, then the unsigned
   * part; no digit is NaN (`None`).
   */
  function ParseInt(s: string): (r: Option<int>)
  {
    var t := TrimStart(s);
    if t != [] && t[0] == '-' then
      match ParseUnsigned(t[1..])
      case Some(v) => Some(-v)
      case None => None
    else if t != [] && t[0] == '+' then ParseUnsigned(t[1..])
    else ParseUnsigned(t)
  }

  function DecimalDigit(d: nat): (c: char)
    requires d < 10
    ensures IsDecimalDigit(c) && DigitValue(c) == d
  {
    ('0' as int + d) as char
  }

  /** `String(n)` for a natural number: its decimal digits with no leading zero. */
  function NatToDecimal(n: nat): (s: string)
    ensures s != [] && AllRadixDigits(s, 10)
    ensures s[0] == '0' ==> n == 0
    decreases n
  {
    if n < 10 then [DecimalDigit(n)] else NatToDecimal(n / 10) + [DecimalDigit(n % 10)]
  }

  /** `String(n)` for an integer. */
  function NumberToString(n: int): string {
    if n < 0 then "-" + NatToDecimal(-n) else NatToDecimal(n)
  }

  /** Reading back the decimal text of `n` gives `n`. */
  lemma {:induction false} ValueOfNatToDecimal(n: nat)
    ensures ValueOf(NatToDecimal(n), 10) == n
    decreases n
  {
    if n >= 10 {
      var s := NatToDecimal(n);
      ValueOfNatToDecimal(n / 10);
      assert s[..|s| - 1] == NatToDecimal(n / 10);
    }
  }

  /** The whole of an all-digit string is its digit prefix. */
  lemma DigitPrefixOfDigits(s: string, radix: nat)
    requires AllRadixDigits(s, radix)
    ensures DigitPrefix(s, radix) == s
  {
  }

  /** The unsigned part of a non-empty string of decimal digits is its decimal value. */
  lemma ParseUnsignedOfDigits(s: string)
    requires s != [] && AllRadixDigits(s, 10)
    ensures ParseUnsigned(s) == Some(ValueOf(s, 10))
  {
    if |s| >= 2 {
      assert IsRadixDigit(s[1], 10);
    }
    DigitPrefixOfDigits(s, 10);
  }

  /** `parseInt` of a non-empty string of decimal digits is its decimal value. */
  lemma ParseIntOfDigits(s: string)
    requires s != [] && AllRadixDigits(s, 10)
    ensures ParseInt(s) == Some(ValueOf(s, 10))
  {
    assert IsRadixDigit(s[0], 10);
    assert TrimStart(s) == s;
    ParseUnsignedOfDigits(s);
  }

  /** `parseInt` of a minus sign followed by decimal digits is the negated value. */
  lemma ParseIntOfNegative(d: string)
    requires d != [] && AllRadixDigits(d, 10)
    ensures ParseInt("-" + d) == Some(-(ValueOf(d, 10) as int))
  {
    var s := "-" + d;
    assert s[0] == '-' && s[1..] == d;
    NoLeadingSpace(s);
    ParseUnsignedOfDigits(d);
  }

  /** A text that does not start with white space is left as it is by `TrimStart`. */
  lemma NoLeadingSpace(s: string)
    requires s != [] && !IsJsWhitespace(s[0])
    ensures TrimStart(s) == s
  {
  }

  /** `parseInt(String(n)) == n` for every integer. */
  lemma ParseIntOfNumber(n: int)
    ensures ParseInt(NumberToString(n)) == Some(n)
  {
    if n < 0 {
      ValueOfNatToDecimal(-n);
      ParseIntOfNegative(NatToDecimal(-n));
    } else {
      ValueOfNatToDecimal(n);
      ParseIntOfDigits(NatToDecimal(n));
    }
  }

  lemma LeadingTwelve()
    ensures LeadingNumber("12.9", 10) == Some(12)
  {
    assert DigitPrefix("12.9", 10) == "12" by {
      assert "12.9"[1..] == "2.9" && "2.9"[1..] == ".9";
    }
    assert ValueOf("12", 10) == 12 by { assert "12"[..1] == "1"; }
  }

  /** A fraction is ignored: `parseInt("12.9")` is 12. */
  lemma ParseIntDropsFraction()
    ensures ParseInt("12.9") == Some(12)
  {
    assert TrimStart("12.9") == "12.9";
    LeadingTwelve();
  }

  lemma LeadingFortyTwo()
    ensures LeadingNumber("42px", 10) == Some(42)
  {
    assert DigitPrefix("42px", 10) == "42" by {
      assert "42px"[1..] == "2px" && "2px"[1..] == "px";
    }
    assert ValueOf("42", 10) == 42 by { assert "42"[..1] == "4"; }
  }

  /** Leading white space is skipped and trailing text ignored: `parseInt("  42px")` is 42. */
  lemma ParseIntSkipsSpaceAndUnit()
    ensures ParseInt("  42px") == Some(42)
  {
    TrimTwoSpaces();
    assert ParseUnsigned("42px") == Some(42) by {
      LeadingFortyTwo();
    }
  }

  lemma TrimTwoSpaces()
    ensures TrimStart("  42px") == "42px"
  {
    assert "  42px"[1..] == " 42px" && " 42px"[1..] == "42px";
    assert TrimStart("42px") == "42px";
  }

  /** A `0x` prefix reads hexadecimal: `parseInt("0x1A")` is 26. */
  lemma ParseIntReadsHex()
    ensures ParseInt("0x1A") == Some(26)
  {
    assert TrimStart("0x1A") == "0x1A";
    assert "0x1A"[2..] == "1A";
    assert DigitPrefix("1A", 16) == "1A" by {
      assert "1A"[1..] == "A" && "A"[1..] == [];
    }
    assert ValueOf("1A", 16) == 26 by { assert "1A"[..1] == "1"; }
  }

  /** No leading digit is NaN: `parseInt("abc")` and `parseInt("")`. */
  lemma ParseIntNaN()
    ensures ParseInt("abc") == None
    ensures ParseInt("") == None
  {
    assert TrimStart("abc") == "abc";
    assert !IsRadixDigit('a', 10);
    assert DigitPrefix("abc", 10) == [];
    assert ParseUnsigned("abc") == None;
    assert TrimStart("") == "";
    assert DigitPrefix("", 10) == [];
  }

  /** `s.replace(/\D/g, '')` (and `/[^\d]/g`): the decimal digits of `s`, in order. */
  function DigitsOf(s: string): (r: string)
    ensures AllRadixDigits(r, 10) && |r| <= |s|
  {
    if s == [] then []
    else (if IsDecimalDigit(s[0]) then [s[0]] else []) + DigitsOf(s[1..])
  }

  /** Filtering distributes over concatenation. */
  lemma {:induction false} DigitsOfConcat(a: string, b: string)
    ensures DigitsOf(a + b) == DigitsOf(a) + DigitsOf(b)
  {
    if a != [] {
      assert (a + b)[0] == a[0];
      assert (a + b)[1..] == a[1..] + b;
      DigitsOfConcat(a[1..], b);
    } else {
      assert a + b == b;
    }
  }

  /** A string of digits is left as it is. */
  lemma {:induction false} DigitsOfDigits(s: string)
    requires AllRadixDigits(s, 10)
    ensures DigitsOf(s) == s
  {
    if s != [] {
      DigitsOfDigits(s[1..]);
    }
  }

  /** A leading zero does not change the value. */
  lemma {:induction false} ValueOfLeadingZero(s: string)
    requires AllRadixDigits(s, 10)
    ensures ValueOf("0" + s, 10) == ValueOf(s, 10)
    decreases |s|
  {
    if s != [] {
      var t := "0" + s;
      assert t[..|t| - 1] == "0" + s[..|s| - 1];
      ValueOfLeadingZero(s[..|s| - 1]);
    } else {
      assert ("0" + s)[..0] == [];
    }
  }
}
