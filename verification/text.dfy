/**
 * String operations the loader relies on, over `string` = `seq<char>`:
 * Python's `str.strip()`, `str.replace('"', '')`, `str.lower()`, `str.upper()`,
 * the substring test `sub in s`, and `sorted()` over a set of strings.
 */
module Text {
  import Seqs

  /** The characters for which Python's `str.isspace()` holds; `str.strip()` removes exactly these. */
  predicate IsSpace(c: char) {
    || c == ' '
    || ('\t' <= c <= '\r')
    || ('\U{1c}' <= c <= '\U{1f}')
    || c == '\U{85}' || c == '\U{a0}' || c == '\U{1680}'
    || ('\U{2000}' <= c <= '\U{200a}')
    || c == '\U{2028}' || c == '\U{2029}' || c == '\U{202f}' || c == '\U{205f}' || c == '\U{3000}'
  }

  /** `s.lstrip()`: drops the leading run of whitespace. */
  function TrimStart(s: string): string
  {
    if |s| > 0 && IsSpace(s[0]) then TrimStart(s[1..]) else s
  }

  /** `s.rstrip()`: drops the trailing run of whitespace. */
  function TrimEnd(s: string): string
  {
    if |s| > 0 && IsSpace(s[|s| - 1]) then TrimEnd(s[..|s| - 1]) else s
  }

  /** `s.strip()`: whitespace removed at both ends. */
  function Strip(s: string): string
  {
    TrimEnd(TrimStart(s))
  }

  predicate NotQuote(c: char) { c != '"' }

  /** `s.replace('"', '')`: every double quote removed. */
  function RemoveQuotes(s: string): string
  {
    if |s| == 0 then ""
    else RemoveQuotes(s[..|s| - 1]) + (if s[|s| - 1] == '"' then "" else [s[|s| - 1]])
  }

  predicate IsAsciiUpper(c: char) { 'A' <= c <= 'Z' }

  predicate IsAsciiLower(c: char) { 'a' <= c <= 'z' }

  function LowerChar(c: char): char {
    if IsAsciiUpper(c) then (c as int + 32) as char else c
  }

  function UpperChar(c: char): char {
    if IsAsciiLower(c) then (c as int - 32) as char else c
  }

  /** `s.lower()` restricted to the ASCII letters. */
  function Lower(s: string): string
  {
    seq(|s|, i requires 0 <= i < |s| => LowerChar(s[i]))
  }

  /** `s.upper()` restricted to the ASCII letters. */
  function Upper(s: string): string
  {
    seq(|s|, i requires 0 <= i < |s| => UpperChar(s[i]))
  }

  lemma {:induction false} TrimStartSpec(s: string)
    ensures var r := TrimStart(s);
            && |r| <= |s| && r == s[|s| - |r|..]
            && (forall i | 0 <= i < |s| - |r| :: IsSpace(s[i]))
            && (|r| == 0 || !IsSpace(r[0]))
    decreases |s|
  {
    if |s| > 0 && IsSpace(s[0]) {
      TrimStartSpec(s[1..]);
    }
  }

  lemma {:induction false} TrimEndSpec(s: string)
    ensures var r := TrimEnd(s);
            && |r| <= |s| && r == s[..|r|]
            && (forall i | |r| <= i < |s| :: IsSpace(s[i]))
            && (|r| == 0 || !IsSpace(r[|r| - 1]))
    decreases |s|
  {
    if |s| > 0 && IsSpace(s[|s| - 1]) {
      TrimEndSpec(s[..|s| - 1]);
    }
  }

  /**
   * `Strip(s)` is the infix `s[k..k + |Strip(s)|]`, everything outside it is
   * whitespace, and it neither starts nor ends with whitespace.
   */
  lemma StripSpec(s: string) returns (k: nat)
    ensures var r := Strip(s);
            && k + |r| <= |s| && r == s[k..k + |r|]
            && (forall i | 0 <= i < k :: IsSpace(s[i]))
            && (forall i | k + |r| <= i < |s| :: IsSpace(s[i]))
            && (|r| == 0 || (!IsSpace(r[0]) && !IsSpace(r[|r| - 1])))
  {
    TrimStartSpec(s);
    var t := TrimStart(s);
    TrimEndSpec(t);
    k := |s| - |t|;
    var r := TrimEnd(t);
    assert r == t[..|r|];
    assert s[k..k + |r|] == t[..|r|];
    forall i | k + |r| <= i < |s| ensures IsSpace(s[i]) {
      assert s[i] == t[i - k];
    }
    if |r| > 0 && |t| > 0 {
      assert r[0] == t[0];
    }
  }

  predicate AllSpace(s: string) { forall i | 0 <= i < |s| :: IsSpace(s[i]) }

  lemma {:induction false} TrimStartPadded(lead: string, t: string)
    requires AllSpace(lead) && (|t| == 0 || !IsSpace(t[0]))
    ensures TrimStart(lead + t) == t
    decreases |lead|
  {
    if |lead| == 0 {
      assert lead + t == t;
    } else {
      assert (lead + t)[1..] == lead[1..] + t;
      TrimStartPadded(lead[1..], t);
    }
  }

  lemma {:induction false} TrimEndPadded(t: string, trail: string)
    requires AllSpace(trail) && (|t| == 0 || !IsSpace(t[|t| - 1]))
    ensures TrimEnd(t + trail) == t
    decreases |trail|
  {
    if |trail| == 0 {
      assert t + trail == t;
    } else {
      assert (t + trail)[..|t + trail| - 1] == t + trail[..|trail| - 1];
      TrimEndPadded(t, trail[..|trail| - 1]);
    }
  }

  /** Whitespace around text that neither starts nor ends with whitespace is exactly what `Strip` removes. */
  lemma StripPadded(lead: string, t: string, trail: string)
    requires AllSpace(lead) && AllSpace(trail)
    requires |t| > 0 && !IsSpace(t[0]) && !IsSpace(t[|t| - 1])
    ensures Strip(lead + t + trail) == t
  {
    assert lead + t + trail == lead + (t + trail);
    TrimStartPadded(lead, t + trail);
    TrimEndPadded(t, trail);
  }

  /** Text without whitespace at either end is left unchanged by `Strip`. */
  lemma StripKeepsTrimmed(s: string)
    requires |s| > 0 && !IsSpace(s[0]) && !IsSpace(s[|s| - 1])
    ensures Strip(s) == s
  {
  }

  /**
   * `RemoveQuotes` keeps exactly the characters that are not double quotes,
   * in their original order.
   */
  lemma RemoveQuotesSpec(s: string)
    ensures RemoveQuotes(s) == Seqs.Filter(s, NotQuote)
    ensures '"' !in RemoveQuotes(s)
    ensures |RemoveQuotes(s)| == |s| - multiset(s)['"']
    ensures '"' !in s ==> RemoveQuotes(s) == s
  {
    RemoveQuotesIsFilter(s);
    RemoveQuotesCount(s);
  }

  lemma {:induction false} RemoveQuotesCount(s: string)
    ensures '"' !in RemoveQuotes(s)
    ensures |RemoveQuotes(s)| == |s| - multiset(s)['"']
    ensures '"' !in s ==> RemoveQuotes(s) == s
    decreases |s|
  {
    if |s| > 0 {
      RemoveQuotesCount(s[..|s| - 1]);
      assert s == s[..|s| - 1] + [s[|s| - 1]];
    }
  }

  lemma {:induction false} RemoveQuotesIsFilter(s: string)
    ensures RemoveQuotes(s) == Seqs.Filter(s, NotQuote)
    decreases |s|
  {
    if |s| > 0 {
      RemoveQuotesIsFilter(s[..|s| - 1]);
    }
  }

  lemma {:induction false} RemoveQuotesAppend(a: string, b: string)
    ensures RemoveQuotes(a + b) == RemoveQuotes(a) + RemoveQuotes(b)
    decreases |b|
  {
    if |b| > 0 {
      assert (a + b)[..|a + b| - 1] == a + b[..|b| - 1];
      RemoveQuotesAppend(a, b[..|b| - 1]);
    } else {
      assert a + b == a;
    }
  }

  /** `Lower` maps every ASCII capital to its small letter and leaves all else alone; it is idempotent. */
  lemma LowerSpec(s: string)
    ensures |Lower(s)| == |s|
    ensures forall i | 0 <= i < |s| ::
              if IsAsciiUpper(s[i]) then Lower(s)[i] as int == s[i] as int + 32 else Lower(s)[i] == s[i]
    ensures forall i | 0 <= i < |s| :: !IsAsciiUpper(Lower(s)[i])
    ensures (forall i | 0 <= i < |s| :: !IsAsciiUpper(s[i])) ==> Lower(s) == s
    ensures Lower(Lower(s)) == Lower(s)
  {
  }

  /** `Upper` maps every ASCII small letter to its capital and leaves all else alone; it is idempotent. */
  lemma UpperSpec(s: string)
    ensures |Upper(s)| == |s|
    ensures forall i | 0 <= i < |s| ::
              if IsAsciiLower(s[i]) then Upper(s)[i] as int == s[i] as int - 32 else Upper(s)[i] == s[i]
    ensures forall i | 0 <= i < |s| :: !IsAsciiLower(Upper(s)[i])
    ensures (forall i | 0 <= i < |s| :: !IsAsciiLower(s[i])) ==> Upper(s) == s
    ensures Upper(Upper(s)) == Upper(s)
  {
  }

  /** Python's `sub in s`: `sub` occurs as a contiguous infix of `s`. */
  predicate Contains(s: string, sub: string)
    decreases |s|
  {
    sub <= s || (|s| > 0 && Contains(s[1..], sub))
  }

  lemma {:induction false} ContainsExtendedBefore(a: string, b: string, sub: string)
    requires Contains(b, sub)
    ensures Contains(a + b, sub)
    decreases |a|
  {
    if |a| == 0 {
      assert a + b == b;
    } else {
      ContainsExtendedBefore(a[1..], b, sub);
      assert (a + b)[1..] == a[1..] + b;
    }
  }

  lemma {:induction false} ContainsExtendedAfter(b: string, c: string, sub: string)
    requires Contains(b, sub)
    ensures Contains(b + c, sub)
    decreases |b|
  {
    if sub <= b {
      assert sub <= b + c;
    } else {
      ContainsExtendedAfter(b[1..], c, sub);
      assert (b + c)[1..] == b[1..] + c;
    }
  }

  /** Python's ordering of `str` values: code point by code point, a proper prefix first. */
  predicate LessEq(a: string, b: string)
    decreases |a|
  {
    |a| == 0 || (|b| > 0 && (a[0] < b[0] || (a[0] == b[0] && LessEq(a[1..], b[1..]))))
  }

  lemma LessEqTotal(a: string, b: string)
    ensures LessEq(a, b) || LessEq(b, a)
    decreases |a|
  {
    if |a| > 0 && |b| > 0 && a[0] == b[0] {
      LessEqTotal(a[1..], b[1..]);
    }
  }

  lemma LessEqAntisymmetric(a: string, b: string)
    requires LessEq(a, b) && LessEq(b, a)
    ensures a == b
    decreases |a|
  {
    if |a| > 0 {
      LessEqAntisymmetric(a[1..], b[1..]);
      assert a == [a[0]] + a[1..] && b == [b[0]] + b[1..];
    }
  }

  lemma LessEqTransitive(a: string, b: string, c: string)
    requires LessEq(a, b) && LessEq(b, c)
    ensures LessEq(a, c)
    decreases |a|
  {
    if |a| > 0 && a[0] == b[0] && b[0] == c[0] {
      LessEqTransitive(a[1..], b[1..], c[1..]);
    }
  }

  /** `m` is the least element of `s` in Python's string order. */
  predicate IsLeast(m: string, s: set<string>) {
    m in s && forall x | x in s :: LessEq(m, x)
  }

  lemma {:induction false} LeastExists(s: set<string>) returns (m: string)
    requires s != {}
    ensures IsLeast(m, s)
    decreases |s|
  {
    var x :| x in s;
    if s == {x} {
      m := x;
      LessEqTotal(x, x);
    } else {
      var m' := LeastExists(s - {x});
      LessEqTotal(x, m');
      if LessEq(x, m') {
        m := x;
        forall y | y in s ensures LessEq(m, y) {
          if y != x {
            LessEqTransitive(x, m', y);
          } else {
            LessEqTotal(x, x);
          }
        }
      } else {
        m := m';
        assert LessEq(m', x);
      }
    }
  }

  lemma HasLeast(s: set<string>)
    requires s != {}
    ensures exists m :: IsLeast(m, s)
  {
    var m := LeastExists(s);
  }

  lemma LeastUnique(s: set<string>)
    ensures forall m, m' | IsLeast(m, s) && IsLeast(m', s) :: m == m'
  {
    forall m, m' | IsLeast(m, s) && IsLeast(m', s) ensures m == m' {
      LessEqAntisymmetric(m, m');
    }
  }

  /** `sorted(s)`: the elements of the set in strictly ascending order. */
  function SortedSet(s: set<string>): (r: seq<string>)
    ensures |r| == |s|
    ensures forall x :: x in r <==> x in s
    ensures forall i, j | 0 <= i < j < |r| :: LessEq(r[i], r[j]) && r[i] != r[j]
    decreases |s|
  {
    if s == {} then []
    else
      HasLeast(s);
      LeastUnique(s);
      var m :| IsLeast(m, s);
      var rest := SortedSet(s - {m});
      assert forall i | 0 <= i < |rest| :: rest[i] in s - {m};
      [m] + rest
  }
}
