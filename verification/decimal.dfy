/** Decimal text for integers: Go's `strconv.Itoa` and the `%d` verb of
    `fmt.Sprintf`, which the client uses for query parameters and item paths,
    together with the parser a server applies to read them back.
 */
module Decimal {
  import opened GoTypes

  predicate IsDigit(c: char)
  {
    '0' <= c <= '9'
  }

  predicate AllDigits(s: string)
  {
    forall i :: 0 <= i < |s| ==> IsDigit(s[i])
  }

  function DigitChar(d: nat): (c: char)
    requires d < 10
    ensures IsDigit(c)
  {
    ('0' as int + d) as char
  }

  /** A digit string as `strconv.Itoa` writes a magnitude: non-empty, and
      without a leading zero unless it is the single digit "0". */
  predicate CanonicalDigits(s: string)
  {
    |s| >= 1 && AllDigits(s) && (|s| == 1 || s[0] != '0')
  }

  /** The spelling Go gives an integer: canonical digits, optionally preceded
      by a minus sign, and never "-0". */
  predicate Canonical(s: string)
  {
    CanonicalDigits(s) || (|s| >= 2 && s[0] == '-' && CanonicalDigits(s[1..]) && s[1] != '0')
  }

  function DigitValue(c: char): (d: nat)
    requires IsDigit(c)
    ensures d < 10
  {
    c as int - '0' as int
  }

  /** The shortest decimal spelling of n (no sign, no leading zeros). */
  function NatDigits(n: nat): (s: string)
    ensures CanonicalDigits(s)
    ensures s[0] == '0' <==> n == 0
    decreases n
  {
    if n < 10 then [DigitChar(n)] else NatDigits(n / 10) + [DigitChar(n % 10)]
  }

  /** The value of a non-empty string of decimal digits, most significant
      first; None if any character is not a digit. */
  function ParseDigits(s: string): Option<nat>
    decreases |s|
  {
    if |s| == 0 || !IsDigit(s[|s| - 1]) then None
    else if |s| == 1 then Some(DigitValue(s[0]))
    else match ParseDigits(s[..|s| - 1])
      case None => None
      case Some(v) => Some(v * 10 + DigitValue(s[|s| - 1]))
  }

  /** `strconv.Itoa(x)`, equivalently `fmt.Sprintf("%d", x)`: a minus sign for
      negative values, then the digits of the magnitude. */
  function FormatInt(x: int): (s: string)
    ensures Canonical(s)
    ensures s[0] == '-' <==> x < 0
    ensures x >= 0 ==> AllDigits(s)
    ensures x < 0 ==> AllDigits(s[1..]) && s[1] != '0'
  {
    if x < 0 then "-" + NatDigits(-x) else NatDigits(x)
  }

  /** Reads an optional minus sign followed by at least one digit; None otherwise. */
  function ParseInt(s: string): Option<int>
  {
    if |s| >= 1 && s[0] == '-' then
      match ParseDigits(s[1..])
      case None => None
      case Some(v) => Some(-(v as int))
    else
      match ParseDigits(s)
      case None => None
      case Some(v) => Some(v as int)
  }

  lemma {:induction false} NatDigitsRoundTrip(n: nat)
    ensures ParseDigits(NatDigits(n)) == Some(n)
    decreases n
  {
    if n >= 10 {
      NatDigitsRoundTrip(n / 10);
      var s := NatDigits(n / 10) + [DigitChar(n % 10)];
      assert s[..|s| - 1] == NatDigits(n / 10);
    }
  }

  /** Parsing undoes formatting, for every integer. */
  lemma FormatIntRoundTrip(x: int)
    ensures ParseInt(FormatInt(x)) == Some(x)
  {
    if x < 0 {
      var d := NatDigits(-x);
      NatDigitsRoundTrip(-x);
      assert FormatInt(x) == "-" + d;
      assert ("-" + d)[1..] == d;
    } else {
      var d := NatDigits(x);
      NatDigitsRoundTrip(x);
      assert FormatInt(x) == d && IsDigit(d[0]);
    }
  }

  /** Two integers are spelled alike exactly when they are equal. */
  lemma FormatIntInjective(x: int, y: int)
    ensures FormatInt(x) == FormatInt(y) <==> x == y
  {
    FormatIntRoundTrip(x);
    FormatIntRoundTrip(y);
  }

  /** A digit string whose first digit is not '0' has a positive value. */
  lemma {:induction false} LeadingDigitPositive(s: string)
    requires |s| >= 1 && AllDigits(s) && s[0] != '0'
    ensures ParseDigits(s).Some? && ParseDigits(s).value >= 1
    decreases |s|
  {
    if |s| > 1 {
      var init := s[..|s| - 1];
      assert init[0] == s[0];
      LeadingDigitPositive(init);
    }
  }

  /** A canonical digit string is the only one with its value. */
  lemma {:induction false} CanonicalDigitsUnique(s: string, t: string)
    requires CanonicalDigits(s) && CanonicalDigits(t)
    requires ParseDigits(s).Some? && ParseDigits(s) == ParseDigits(t)
    ensures s == t
    decreases |s|
  {
    var v := ParseDigits(s).value;
    if |s| == 1 && |t| > 1 {
      LeadingDigitPositive(t[..|t| - 1]);
      assert false;
    } else if |t| == 1 && |s| > 1 {
      LeadingDigitPositive(s[..|s| - 1]);
      assert false;
    } else if |s| > 1 {
      var s', t' := s[..|s| - 1], t[..|t| - 1];
      var p, q := ParseDigits(s').value, ParseDigits(t').value;
      var a, b := DigitValue(s[|s| - 1]), DigitValue(t[|t| - 1]);
      assert p * 10 + a == q * 10 + b;
      assert a == b && p == q;
      assert s'[0] == s[0] && t'[0] == t[0];
      CanonicalDigitsUnique(s', t');
      assert s == s' + [s[|s| - 1]] && t == t' + [t[|t| - 1]];
    }
  }

  /** FormatInt is Go's spelling and no other: the one canonical text that
      reads back as x. */
  lemma FormatIntIsCanonicalSpelling(x: int, t: string)
    requires Canonical(t) && ParseInt(t) == Some(x)
    ensures t == FormatInt(x)
  {
    if t[0] == '-' {
      LeadingDigitPositive(t[1..]);
      var d := NatDigits(-x);
      NatDigitsRoundTrip(-x);
      CanonicalDigitsUnique(t[1..], d);
      assert t == "-" + t[1..];
    } else {
      NatDigitsRoundTrip(x);
      CanonicalDigitsUnique(t, NatDigits(x));
    }
  }
}
