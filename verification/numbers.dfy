/**
 * Text-to-number conversion. `PythonFloat` models `float(text)` on the plain
 * decimal notation the ledger and wallet exports use: optional sign, digits,
 * optional fraction; surrounding whitespace is ignored as `float()` ignores it.
 * Values are exact reals, so binary floating-point rounding is not modelled.
 */
module Numbers {
  import opened Wrappers
  import Text

  predicate IsDigit(c: char) { '0' <= c <= '9' }

  predicate AllDigits(s: string) { forall i | 0 <= i < |s| :: IsDigit(s[i]) }

  function DigitValue(c: char): nat
    requires IsDigit(c)
  {
    c as int - '0' as int
  }

  function DigitChar(d: nat): (c: char)
    requires d < 10
    ensures IsDigit(c) && DigitValue(c) == d
  {
    ('0' as int + d) as char
  }

  function Pow10(n: nat): (p: nat)
    ensures p >= 1
  {
    if n == 0 then 1 else 10 * Pow10(n - 1)
  }

  /** The natural number a run of decimal digits denotes (leading zeros allowed). */
  function DigitsValue(s: string): nat
    requires AllDigits(s)
  {
    if |s| == 0 then 0 else 10 * DigitsValue(s[..|s| - 1]) + DigitValue(s[|s| - 1])
  }

  /** Index of the first occurrence of `c` in `s`, if any. */
  function IndexOf(s: string, c: char): (r: Option<nat>)
    ensures r.Some? ==> r.value < |s| && s[r.value] == c && c !in s[..r.value]
    ensures r.None? <==> c !in s
  {
    if |s| == 0 then None
    else if s[0] == c then Some(0)
    else
      match IndexOf(s[1..], c)
      case None => None
      case Some(i) =>
        assert s[..i + 1] == [s[0]] + s[1..][..i];
        Some(i + 1)
  }

  /** The first occurrence is where `c` sits with no `c` before it. */
  lemma IndexOfFirst(s: string, c: char, j: nat)
    requires j < |s| && s[j] == c && c !in s[..j]
    ensures IndexOf(s, c) == Some(j)
  {
  }

  /** The value of `whole.frac` written in decimal digits. */
  function FixedValue(whole: string, frac: string): real
    requires AllDigits(whole) && AllDigits(frac)
  {
    DigitsValue(whole) as real + DigitsValue(frac) as real / Pow10(|frac|) as real
  }

  /** An unsigned decimal: `digits`, `digits.`, `.digits` or `digits.digits`. */
  function ParseUnsigned(s: string): (r: Option<real>)
    ensures r.Some? ==> r.value >= 0.0
  {
    match IndexOf(s, '.')
    case None =>
      if |s| > 0 && AllDigits(s) then Some(DigitsValue(s) as real) else None
    case Some(dot) =>
      var whole := s[..dot];
      var frac := s[dot + 1..];
      if (|whole| > 0 || |frac| > 0) && AllDigits(whole) && AllDigits(frac)
      then Some(FixedValue(whole, frac))
      else None
  }

  /** A decimal with an optional leading `+` or `-`; `None` where `float()` raises `ValueError`. */
  function ParseDecimal(s: string): Option<real>
  {
    if |s| > 0 && s[0] == '-' then
      match ParseUnsigned(s[1..])
      case Some(v) => Some(-v)
      case None => None
    else if |s| > 0 && s[0] == '+' then ParseUnsigned(s[1..])
    else ParseUnsigned(s)
  }

  /** `float(text)`: leading and trailing whitespace is ignored. */
  function PythonFloat(s: string): Option<real>
  {
    ParseDecimal(Text.Strip(s))
  }

  /** `parse_float`: `float(text)`, or 0.0 when the text is not a number. */
  function ParseFloat(s: string): (r: real)
    ensures PythonFloat(s).Some? ==> r == PythonFloat(s).value
    ensures PythonFloat(s).None? ==> r == 0.0
    ensures (forall i | 0 <= i < |s| :: !IsDigit(s[i])) ==> r == 0.0
  {
    FloatHasDigit(s);
    PythonFloat(s).GetOr(0.0)
  }

  predicate HasDigit(s: string) { exists i | 0 <= i < |s| :: IsDigit(s[i]) }

  lemma UnsignedHasDigit(s: string)
    requires ParseUnsigned(s).Some?
    ensures HasDigit(s)
  {
    match IndexOf(s, '.')
    case None =>
      assert IsDigit(s[0]);
    case Some(dot) =>
      var whole, frac := s[..dot], s[dot + 1..];
      if |whole| > 0 {
        assert s[0] == whole[0];
      } else {
        assert s[dot + 1] == frac[0];
      }
  }

  lemma DecimalHasDigit(s: string)
    requires ParseDecimal(s).Some?
    ensures HasDigit(s)
  {
    if |s| > 0 && (s[0] == '-' || s[0] == '+') {
      UnsignedHasDigit(s[1..]);
      var i :| 0 <= i < |s[1..]| && IsDigit(s[1..][i]);
      assert IsDigit(s[i + 1]);
    } else {
      UnsignedHasDigit(s);
    }
  }

  /** Only text with a digit reads as a number. */
  lemma FloatHasDigit(s: string)
    ensures PythonFloat(s).Some? ==> HasDigit(s)
  {
    if PythonFloat(s).Some? {
      var k := Text.StripSpec(s);
      var t := Text.Strip(s);
      DecimalHasDigit(t);
      var i :| 0 <= i < |t| && IsDigit(t[i]);
      assert s[k + i] == t[i];
    }
  }

  /** Decimal text of a natural number, without leading zeros. */
  function NatText(n: nat): (s: string)
    ensures |s| > 0 && AllDigits(s)
  {
    if n < 10 then [DigitChar(n)] else NatText(n / 10) + [DigitChar(n % 10)]
  }

  /** Exactly `places` digits for `n < 10^places`, padded with leading zeros. */
  function PaddedText(n: nat, places: nat): (s: string)
    requires n < Pow10(places)
    ensures |s| == places && AllDigits(s)
  {
    if places == 0 then "" else PaddedText(n / 10, places - 1) + [DigitChar(n % 10)]
  }

  /** The value `whole + frac / 10^places` that fixed-point text denotes. */
  function FixedReal(whole: nat, frac: nat, places: nat): real
  {
    whole as real + frac as real / Pow10(places) as real
  }

  /** Fixed-point text `whole.frac` as ledger exports write amounts, e.g. `0.0000100000`. */
  function FixedText(negative: bool, whole: nat, frac: nat, places: nat): string
    requires frac < Pow10(places)
  {
    SignText(negative) + (NatText(whole) + "." + PaddedText(frac, places))
  }

  /** The sign written in front of a number: `-` or nothing. */
  function SignText(negative: bool): string
  {
    if negative then "-" else ""
  }

  lemma {:induction false} NatTextValue(n: nat)
    ensures DigitsValue(NatText(n)) == n
  {
    if n >= 10 {
      var s := NatText(n);
      assert s[..|s| - 1] == NatText(n / 10);
      NatTextValue(n / 10);
    }
  }

  lemma {:induction false} PaddedTextValue(n: nat, places: nat)
    requires n < Pow10(places)
    ensures DigitsValue(PaddedText(n, places)) == n
  {
    if places > 0 {
      var s := PaddedText(n, places);
      assert s[..|s| - 1] == PaddedText(n / 10, places - 1);
      PaddedTextValue(n / 10, places - 1);
    }
  }

  lemma DigitsHaveNoDot(s: string)
    requires AllDigits(s)
    ensures '.' !in s
  {
  }

  /** A sign in front of an unsigned decimal that starts with a digit. */
  lemma SignedRead(u: string, v: real)
    requires |u| > 0 && IsDigit(u[0]) && ParseUnsigned(u) == Some(v)
    ensures ParseDecimal(u) == Some(v)
    ensures ParseDecimal("-" + u) == Some(-v)
  {
    assert ("-" + u)[1..] == u;
  }

  lemma UnsignedNat(n: nat)
    ensures ParseUnsigned(NatText(n)) == Some(n as real)
  {
    DigitsHaveNoDot(NatText(n));
    NatTextValue(n);
  }

  /** Digits, a dot and digits read as the fixed-point value they spell. */
  lemma UnsignedDigits(w: string, f: string)
    requires |w| > 0 && AllDigits(w) && AllDigits(f)
    ensures ParseUnsigned(w + "." + f) == Some(FixedValue(w, f))
    ensures IsDigit((w + "." + f)[0])
  {
    var u := w + "." + f;
    DigitsHaveNoDot(w);
    assert u[..|w|] == w;
    IndexOfFirst(u, '.', |w|);
    assert u[|w| + 1..] == f;
  }

  /** The digits of fixed-point text spell `whole + frac / 10^places`. */
  lemma FixedTextValue(whole: nat, frac: nat, places: nat)
    requires frac < Pow10(places)
    ensures FixedValue(NatText(whole), PaddedText(frac, places)) == FixedReal(whole, frac, places)
  {
    NatTextValue(whole);
    PaddedTextValue(frac, places);
  }

  /** The signed decimal text of a natural number reads back as that number. */
  lemma SignedIntegerText(negative: bool, n: nat)
    ensures ParseDecimal(SignText(negative) + NatText(n)) == Some(if negative then -(n as real) else n as real)
  {
    UnsignedNat(n);
    SignedText(negative, NatText(n), n as real);
  }

  /** A sign in front of unsigned decimal text negates what it reads as. */
  lemma SignedText(negative: bool, u: string, v: real)
    requires |u| > 0 && IsDigit(u[0]) && ParseUnsigned(u) == Some(v)
    ensures ParseDecimal(SignText(negative) + u) == Some(if negative then -v else v)
  {
    SignedRead(u, v);
    assert "" + u == u;
  }

  /** Number text, which starts with a sign or digit and ends with a digit or dot, is what `Strip` keeps of its padding. */
  lemma StripNumberText(lead: string, t: string, trail: string)
    requires Text.AllSpace(lead) && Text.AllSpace(trail)
    requires |t| > 0 && (t[0] == '-' || IsDigit(t[0])) && (t[|t| - 1] == '.' || IsDigit(t[|t| - 1]))
    ensures Text.Strip(lead + t + trail) == t
  {
    Text.StripPadded(lead, t, trail);
  }

  /**
   * `parse_float` on the text of an integer, with an optional minus sign and
   * surrounding whitespace, yields that integer.
   */
  lemma IntegerRoundTrip(lead: string, negative: bool, n: nat, trail: string)
    requires Text.AllSpace(lead) && Text.AllSpace(trail)
    ensures ParseFloat(lead + SignText(negative) + NatText(n) + trail)
         == if negative then -(n as real) else n as real
  {
    var t := SignText(negative) + NatText(n);
    assert lead + SignText(negative) + NatText(n) + trail == lead + t + trail;
    assert t[|t| - 1] == NatText(n)[|NatText(n)| - 1];
    assert t[0] == '-' || t[0] == NatText(n)[0];
    StripNumberText(lead, t, trail);
    SignedIntegerText(negative, n);
  }

  /**
   * `parse_float` on fixed-point text as the ledger writes amounts (for example
   * ` -0.0000100000 `) yields `whole + frac / 10^places`, with its sign.
   */
  lemma FixedRoundTrip(lead: string, negative: bool, whole: nat, frac: nat, places: nat, trail: string)
    requires Text.AllSpace(lead) && Text.AllSpace(trail) && frac < Pow10(places)
    ensures var v := FixedReal(whole, frac, places);
            ParseFloat(lead + FixedText(negative, whole, frac, places) + trail) == if negative then -v else v
  {
    var t := FixedText(negative, whole, frac, places);
    var w := NatText(whole);
    var u := w + "." + PaddedText(frac, places);
    assert t[0] == '-' || t[0] == w[0];
    if places > 0 {
      assert t[|t| - 1] == PaddedText(frac, places)[places - 1];
    } else {
      assert t[|t| - 1] == '.';
    }
    StripNumberText(lead, t, trail);
    var f := PaddedText(frac, places);
    UnsignedDigits(w, f);
    FixedTextValue(whole, frac, places);
    SignedText(negative, u, FixedReal(whole, frac, places));
  }
}
