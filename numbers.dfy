/**
 * Decimal integers as Python's `int()` reads them, and the decimal spelling they round-trip with.
 * `setup/bin/maf_filter.py` calls `int()` on lines 52, 59 and 62, and `float()` on line 61.
 */
module Numbers {
  import opened Wrappers
  import opened Text

  predicate IsDigit(c: char) {
    '0' <= c <= '9'
  }

  predicate AllDigits(s: string) {
    forall k :: 0 <= k < |s| ==> IsDigit(s[k])
  }

  /** The whitespace Python strips around a number: space, tab, newline, return, vertical tab, form feed. */
  const Whitespace: set<char> := {' ', '\t', '\n', '\r', '\U{000B}', '\U{000C}'}

  /** The value of a string of decimal digits (leading zeros allowed), read left to right. */
  function DigitsValue(s: string): (n: nat)
    requires AllDigits(s)
  {
    if s == [] then 0
    else DigitsValue(s[..|s| - 1]) * 10 + (s[|s| - 1] - '0') as nat
  }

  /** The shortest decimal spelling of `n`, without sign or leading zeros. */
  function NatDigits(n: nat): (s: string)
    ensures |s| >= 1 && AllDigits(s)
  {
    if n < 10 then ['0' + n as char]
    else NatDigits(n / 10) + ['0' + (n % 10) as char]
  }

  /** Reading back the spelling of a number gives the number. */
  lemma {:induction false} DigitsValueOfNatDigits(n: nat)
    ensures DigitsValue(NatDigits(n)) == n
  {
    if n >= 10 {
      var s := NatDigits(n);
      assert s[..|s| - 1] == NatDigits(n / 10);
      DigitsValueOfNatDigits(n / 10);
    }
  }

  /** The decimal spelling of an integer, with a leading `-` when it is negative. */
  function IntToString(n: int): string {
    if n < 0 then "-" + NatDigits(-n) else NatDigits(n)
  }

  /** An optional `+` or `-` followed by at least one digit: the text `int()` accepts once stripped. */
  predicate SignedDigits(t: string) {
    (|t| >= 1 && AllDigits(t)) || (|t| >= 2 && (t[0] == '-' || t[0] == '+') && AllDigits(t[1..]))
  }

  /**
   * Python's `int(s)` for base 10: surrounding whitespace is ignored, an optional `+` or `-`
   * is followed by at least one digit; anything else raises `ValueError`, which is `None` here.
   */
  function ParseInt(s: string): (r: Option<int>)
    ensures r.Some? <==> SignedDigits(Strip(s, Whitespace))
    ensures var t := Strip(s, Whitespace);
      (|t| >= 1 && AllDigits(t) ==> r == Some(DigitsValue(t))) &&
      (|t| >= 2 && t[0] == '+' && AllDigits(t[1..]) ==> r == Some(DigitsValue(t[1..]))) &&
      (|t| >= 2 && t[0] == '-' && AllDigits(t[1..]) ==> r == Some(-(DigitsValue(t[1..]) as int)))
    ensures AllDigits(s) && |s| >= 1 ==> r == Some(DigitsValue(s))
  {
    var t := Strip(s, Whitespace);
    assert AllDigits(s) ==> t == s by {
      if AllDigits(s) {
        NoWhitespace(s);
      }
    }
    ParseSigned(t)
  }

  /** An optional sign followed by at least one digit, with nothing around it. */
  function ParseSigned(t: string): (r: Option<int>)
    ensures r.Some? <==> SignedDigits(t)
    ensures |t| >= 1 && AllDigits(t) ==> r == Some(DigitsValue(t))
    ensures |t| >= 2 && t[0] == '+' && AllDigits(t[1..]) ==> r == Some(DigitsValue(t[1..]))
    ensures |t| >= 2 && t[0] == '-' && AllDigits(t[1..]) ==> r == Some(-(DigitsValue(t[1..]) as int))
  {
    if |t| >= 2 && t[0] == '-' && AllDigits(t[1..]) then Some(0 - DigitsValue(t[1..]))
    else if |t| >= 2 && t[0] == '+' && AllDigits(t[1..]) then Some(DigitsValue(t[1..]))
    else if |t| >= 1 && AllDigits(t) then Some(DigitsValue(t))
    else None
  }

  lemma NoWhitespace(s: string)
    requires AllDigits(s)
    ensures forall k :: 0 <= k < |s| ==> s[k] !in Whitespace
  {
  }

  /** `int()` reads back every integer from its decimal spelling. */
  lemma ParseIntOfIntToString(n: int)
    ensures ParseInt(IntToString(n)) == Some(n)
  {
    if n >= 0 {
      DigitsValueOfNatDigits(n);
    } else {
      var s := NatDigits(-n);
      assert IntToString(n) == "-" + s;
      DigitsValueOfNatDigits(-n);
      ParseIntOfMinus(s);
    }
  }

  /** A minus sign in front of digits negates their value. */
  lemma ParseIntOfMinus(s: string)
    requires |s| >= 1 && AllDigits(s)
    ensures ParseInt("-" + s) == Some(-(DigitsValue(s) as int))
  {
    StripSigned(s);
    ParseSignedMinus(s);
  }

  lemma StripSigned(s: string)
    requires |s| >= 1 && AllDigits(s)
    ensures Strip("-" + s, Whitespace) == "-" + s
  {
    var t := "-" + s;
    assert t[0] == '-' && t[|t| - 1] == s[|s| - 1];
    assert IsDigit(s[|s| - 1]);
    assert t[0] !in Whitespace && t[|t| - 1] !in Whitespace;
  }

  lemma ParseSignedMinus(s: string)
    requires |s| >= 1 && AllDigits(s)
    ensures ParseSigned("-" + s) == Some(-(DigitsValue(s) as int))
  {
    var t := "-" + s;
    assert t[1..] == s;
  }
}
