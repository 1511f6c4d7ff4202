/**
 * JavaScript numbers as the screens use them: integer ids and durations, `NaN`
 * from a failed `parseInt`, `String(n)` and truthiness.
 */
module Numbers {
  import opened Text

  /** A JavaScript number restricted to the integers, plus `NaN`. */
  datatype JsNumber = Finite(value: int) | NaN

  /** `!!n`: zero and `NaN` are falsy. */
  predicate Truthy(n: JsNumber) {
    n.Finite? && n.value != 0
  }

  /** `a === b`: `NaN` equals nothing, not even itself. */
  predicate StrictEquals(a: JsNumber, b: JsNumber) {
    a.Finite? && b.Finite? && a.value == b.value
  }

  predicate IsDigit(c: char) {
    '0' <= c <= '9'
  }

  function DigitValue(c: char): nat
    requires IsDigit(c)
  {
    c as int - '0' as int
  }

  function DigitChar(d: nat): (c: char)
    requires d < 10
    ensures IsDigit(c) && DigitValue(c) == d
  {
    ('0' as int + d) as char
  }

  predicate AllDigits(s: string) {
    forall i :: 0 <= i < |s| ==> IsDigit(s[i])
  }

  /** The longest prefix of `s` made of decimal digits. */
  function LeadingDigits(s: string): (r: string)
    ensures IsPrefix(r, s) && AllDigits(r)
    ensures |r| < |s| ==> !IsDigit(s[|r|])
  {
    if |s| > 0 && IsDigit(s[0]) then [s[0]] + LeadingDigits(s[1..]) else ""
  }

  /** The value of a string of decimal digits, most significant first. */
  function DigitsValue(s: string): nat
    requires AllDigits(s)
  {
    if |s| == 0 then 0 else DigitsValue(s[..|s| - 1]) * 10 + DigitValue(s[|s| - 1])
  }

  /** `parseInt(s)` in base 10: leading white space, an optional sign, then the longest run of digits. */
  function ParseInt(s: string): JsNumber {
    ParseSigned(TrimStart(s))
  }

  /** `parseInt` after the leading white space: an optional sign, then the longest run of digits. */
  function ParseSigned(t: string): JsNumber {
    var body := if |t| > 0 && (t[0] == '-' || t[0] == '+') then t[1..] else t;
    ParseDigits(LeadingDigits(body), |t| > 0 && t[0] == '-')
  }

  /** The number a run of digits denotes, negated after a '-'; no digits at all is `NaN`. */
  function ParseDigits(digits: string, negative: bool): JsNumber
    requires AllDigits(digits)
  {
    if |digits| == 0 then NaN
    else if negative then Finite(-(DigitsValue(digits) as int))
    else Finite(DigitsValue(digits))
  }

  /** Text that starts with a character other than white space has nothing to trim at its start. */
  lemma TrimStartNoSpace(s: string)
    requires |s| > 0 && !IsSpace(s[0])
    ensures TrimStart(s) == s
  {
  }

  /** `String(n)` for a non-negative integer. */
  function NatToString(n: nat): (r: string)
    ensures |r| > 0 && AllDigits(r)
  {
    if n < 10 then [DigitChar(n)] else NatToString(n / 10) + [DigitChar(n % 10)]
  }

  /** `String(n)` for an integer. */
  function IntToString(n: int): string {
    if n < 0 then "-" + NatToString(-n) else NatToString(n)
  }

  lemma {:induction false} DigitsValueOfNatToString(n: nat)
    ensures DigitsValue(NatToString(n)) == n
  {
    var s := NatToString(n);
    if n >= 10 {
      DigitsValueOfNatToString(n / 10);
      assert s[..|s| - 1] == NatToString(n / 10);
    }
  }

  /** The leading digits of a digit string followed by a non-digit are that digit string. */
  lemma {:induction false} LeadingDigitsOfDigitsThen(ds: string, rest: string)
    requires AllDigits(ds)
    requires |rest| == 0 || !IsDigit(rest[0])
    ensures LeadingDigits(ds + rest) == ds
    decreases |ds|
  {
    if |ds| > 0 {
      assert (ds + rest)[1..] == ds[1..] + rest;
      LeadingDigitsOfDigitsThen(ds[1..], rest);
    }
  }

  /** Digits followed by a non-digit parse to the digits' value. */
  lemma {:induction false} ParseIntOfDigits(digits: string, rest: string)
    requires |digits| > 0 && AllDigits(digits)
    requires |rest| == 0 || !IsDigit(rest[0])
    ensures ParseInt(digits + rest) == Finite(DigitsValue(digits))
  {
    var s := digits + rest;
    assert s[0] == digits[0];
    TrimStartNoSpace(s);
    LeadingDigitsOfDigitsThen(digits, rest);
  }

  /** A '-', then digits followed by a non-digit, parse to the digits' value negated. */
  lemma {:induction false} ParseIntOfNegatedDigits(digits: string, rest: string)
    requires |digits| > 0 && AllDigits(digits)
    requires |rest| == 0 || !IsDigit(rest[0])
    ensures ParseInt("-" + digits + rest) == Finite(-(DigitsValue(digits) as int))
  {
    var s := "-" + digits + rest;
    assert ParseInt(s) == ParseSigned(s) by {
      TrimStartNoSpace(s);
    }
    assert ParseSigned(s) == ParseDigits(digits, true) by {
      assert s[0] == '-' && s[1..] == digits + rest;
      LeadingDigitsOfDigitsThen(digits, rest);
    }
  }

  /**
   * `parseInt` reads the leading integer of its argument: `String(n)` followed by
   * anything that does not start with a digit parses back to `n`.
   */
  lemma {:induction false} ParseIntLeadingInteger(n: int, rest: string)
    requires |rest| == 0 || !IsDigit(rest[0])
    ensures ParseInt(IntToString(n) + rest) == Finite(n)
  {
    if n < 0 {
      DigitsValueOfNatToString(-n);
      ParseIntOfNegatedDigits(NatToString(-n), rest);
    } else {
      DigitsValueOfNatToString(n);
      ParseIntOfDigits(NatToString(n), rest);
    }
  }

  /** `parseInt(String(n)) === n`. */
  lemma ParseIntRoundTrip(n: int)
    ensures ParseInt(IntToString(n)) == Finite(n)
  {
    ParseIntLeadingInteger(n, "");
    assert IntToString(n) + "" == IntToString(n);
  }

  /** A string with no digit after its leading blanks and sign parses to `NaN`. */
  lemma ParseIntNoDigits(s: string)
    requires |s| == 0 || (!IsSpace(s[0]) && !IsDigit(s[0]) && s[0] != '-' && s[0] != '+')
    ensures ParseInt(s) == NaN
  {
  }

  /**
   * `Number(s)` on the texts a select hands back: blanks around an optional
   * sign and decimal digits; the blank text is 0 and anything else `NaN`.
   */
  function NumberOf(s: string): JsNumber {
    var t := Trim(s);
    if t == "" then Finite(0)
    else
      var body := if t[0] == '-' || t[0] == '+' then t[1..] else t;
      if body == "" || !AllDigits(body) then NaN
      else if t[0] == '-' then Finite(-(DigitsValue(body) as int))
      else Finite(DigitsValue(body))
  }

  /** `Number(String(n)) === n`: a select whose option values are ids hands back the chosen id. */
  lemma {:induction false} NumberOfRoundTrip(n: int)
    ensures NumberOf(IntToString(n)) == Finite(n)
  {
    var s := IntToString(n);
    var m: nat := if n < 0 then -n else n;
    DigitsValueOfNatToString(m);
    var digits := NatToString(m);
    assert !IsSpace(s[0]) by {
      if n >= 0 {
        assert s[0] == digits[0];
      }
    }
    assert TrimStart(s) == s;
    assert s[|s| - 1] == digits[|digits| - 1];
    assert TrimEnd(s) == s;
    if n < 0 {
      assert s[1..] == digits;
    }
  }
}
