/**
 * Decimal text of integers: Python's `str(int)` (also JavaScript's `String(n)` for
 * integers) and the subset of Python's `int(text)` that the relay depends on.
 */
module Decimal {
  import opened Wrappers

  predicate IsDigit(c: char) { '0' <= c <= '9' }

  predicate IsSpace(c: char) { c == ' ' || c == '\t' || c == '\n' || c == '\r' || c == '\U{B}' || c == '\U{C}' || '\U{1C}' <= c <= '\U{1F}' }

  function DigitChar(d: nat): (c: char)
    requires d < 10
    ensures IsDigit(c)
  {
    ['0', '1', '2', '3', '4', '5', '6', '7', '8', '9'][d]
  }

  function DigitValue(c: char): (d: nat)
    requires IsDigit(c)
    ensures d < 10
  {
    (c as int - '0' as int) as nat
  }

  /** The decimal digits of `n`, most significant first, with no leading zero. */
  function NatToString(n: nat): (s: string)
    ensures |s| > 0
    ensures forall i :: 0 <= i < |s| ==> IsDigit(s[i])
    decreases n
  {
    if n < 10 then [DigitChar(n)] else NatToString(n / 10) + [DigitChar(n % 10)]
  }

  /** Python's `str(i)`: a minus sign for negatives, then the digits. */
  function IntToString(i: int): (s: string)
    ensures |s| > 0
    ensures forall k :: 0 <= k < |s| ==> IsDigit(s[k]) || (k == 0 && s[k] == '-')
  {
    if i < 0 then "-" + NatToString(-i) else NatToString(i)
  }

  /** The value of a non-empty run of digits. */
  function DigitsValue(s: string): nat
    requires forall i :: 0 <= i < |s| ==> IsDigit(s[i])
  {
    if s == [] then 0 else DigitsValue(s[..|s| - 1]) * 10 + DigitValue(s[|s| - 1])
  }

  predicate AllDigits(s: string) { |s| > 0 && forall i :: 0 <= i < |s| ==> IsDigit(s[i]) }

  function TrimStart(s: string): (r: string)
    ensures |r| <= |s|
    ensures r != [] ==> !IsSpace(r[0])
    ensures forall c :: c in r ==> c in s
  {
    if s != [] && IsSpace(s[0]) then TrimStart(s[1..]) else s
  }

  function TrimEnd(s: string): (r: string)
    ensures |r| <= |s|
    ensures r != [] ==> !IsSpace(r[|r| - 1])
    ensures forall c :: c in r ==> c in s
  {
    if s != [] && IsSpace(s[|s| - 1]) then TrimEnd(s[..|s| - 1]) else s
  }

  /**
   * Python's `int(text)` for base 10: surrounding white space is ignored, then an
   * optional sign and at least one ASCII digit; anything else is a ValueError (None).
   */
  function ParseInt(text: string): (r: Option<int>)
    ensures r.Some? ==> exists k :: 0 <= k < |text| && IsDigit(text[k])
  {
    var s := TrimEnd(TrimStart(text));
    if s != [] && (s[0] == '-' || s[0] == '+') then
      if AllDigits(s[1..]) then
        assert s[1..][0] in text;
        Some(if s[0] == '-' then 0 - DigitsValue(s[1..]) as int else DigitsValue(s[1..]))
      else None
    else if AllDigits(s) then
      assert s[0] in text;
      Some(DigitsValue(s))
    else None
  }

  lemma {:induction false} NatToStringValue(n: nat)
    ensures DigitsValue(NatToString(n)) == n
    decreases n
  {
    var s := NatToString(n);
    if n < 10 {
      assert s[..|s| - 1] == [];
    } else {
      NatToStringValue(n / 10);
      assert s[..|s| - 1] == NatToString(n / 10);
    }
  }

  lemma NoSpaceTrims(s: string)
    requires forall k :: 0 <= k < |s| ==> !IsSpace(s[k])
    ensures TrimEnd(TrimStart(s)) == s
  {
  }

  /** Trimming the start commutes with appending a character, unless only spaces remain. */
  lemma {:induction false} TrimStartSnoc(t: string, c: char)
    ensures TrimStart(t + [c]) == TrimStart(t) + [c] || (IsSpace(c) && TrimStart(t + [c]) == [] && TrimStart(t) == [])
    decreases |t|
  {
    if t == [] {
      assert [] + [c] == [c];
      assert [c][1..] == [];
    } else if IsSpace(t[0]) {
      TrimStartSnoc(t[1..], c);
      assert (t + [c])[1..] == t[1..] + [c];
    }
  }

  /** `int` ignores a leading white-space character. */
  lemma LeadingSpaceIgnored(c: char, t: string)
    requires IsSpace(c)
    ensures ParseInt([c] + t) == ParseInt(t)
  {
    assert ([c] + t)[1..] == t;
  }

  /** `int` ignores a trailing white-space character. */
  lemma TrailingSpaceIgnored(t: string, c: char)
    requires IsSpace(c)
    ensures ParseInt(t + [c]) == ParseInt(t)
  {
    TrimStartSnoc(t, c);
    var u := TrimStart(t);
    if TrimStart(t + [c]) == u + [c] {
      assert (u + [c])[..|u|] == u;
    }
  }

  /** `int` ignores any white space around the text. */
  lemma {:induction false} SurroundingSpaceIgnored(pre: string, t: string, post: string)
    requires forall k :: 0 <= k < |pre| ==> IsSpace(pre[k])
    requires forall k :: 0 <= k < |post| ==> IsSpace(post[k])
    ensures ParseInt(pre + t + post) == ParseInt(t)
    decreases |pre| + |post|
  {
    if post != [] {
      var init := post[..|post| - 1];
      SurroundingSpaceIgnored(pre, t, init);
      assert pre + t + post == (pre + t + init) + [post[|post| - 1]];
      TrailingSpaceIgnored(pre + t + init, post[|post| - 1]);
    } else if pre != [] {
      SurroundingSpaceIgnored(pre[1..], t, []);
      assert pre + t + post == [pre[0]] + (pre[1..] + t + []);
      LeadingSpaceIgnored(pre[0], pre[1..] + t + []);
    } else {
      assert pre + t + post == t;
    }
  }

  /** A bare run of digits reads as its value. */
  lemma ParseDigits(d: string)
    requires AllDigits(d)
    ensures ParseInt(d) == Some(DigitsValue(d) as int)
  {
    NoSpaceTrims(d);
    assert TrimEnd(TrimStart(d)) == d;
    assert IsDigit(d[0]);
  }

  /** A minus sign followed by a run of digits reads as the negated value. */
  lemma ParseNegated(d: string)
    requires AllDigits(d)
    ensures ParseInt("-" + d) == Some(0 - DigitsValue(d) as int)
  {
    var m := "-" + d;
    forall k | 0 <= k < |m| ensures !IsSpace(m[k]) {
      if k > 0 {
        assert m[k] == d[k - 1];
      }
    }
    NoSpaceTrims(m);
    assert TrimEnd(TrimStart(m)) == m;
    assert m[0] == '-' && m[1..] == d;
  }

  /** Reading back what `str` wrote gives the same integer (`int(str(i)) == i`). */
  lemma IntToStringRoundTrip(i: int)
    ensures ParseInt(IntToString(i)) == Some(i)
  {
    var n: nat := if i < 0 then -i else i;
    var d := NatToString(n);
    NatToStringValue(n);
    if i < 0 {
      ParseNegated(d);
    } else {
      ParseDigits(d);
    }
  }

  /** Different integers print differently. */
  lemma IntToStringInjective(i: int, j: int)
    requires IntToString(i) == IntToString(j)
    ensures i == j
  {
    IntToStringRoundTrip(i);
    IntToStringRoundTrip(j);
  }
}
