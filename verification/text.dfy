/** The string primitives the source relies on: .NET `char.IsWhiteSpace`,
    `string.ToLowerInvariant`, `string.Trim` and `string.IsNullOrWhiteSpace`,
    and JavaScript's decimal rendering of a non-negative integer. */
module Text {
  import opened Wrappers

  /** `char.IsWhiteSpace`: the characters with the Unicode White_Space property. */
  predicate IsWhiteSpace(c: char) {
    || '\U{9}' <= c <= '\U{D}'
    || c == ' ' || c == '\U{85}' || c == '\U{A0}' || c == '\U{1680}'
    || '\U{2000}' <= c <= '\U{200A}'
    || c == '\U{2028}' || c == '\U{2029}' || c == '\U{202F}' || c == '\U{205F}' || c == '\U{3000}'
  }

  predicate AllWhiteSpace(s: string) {
    forall i :: 0 <= i < |s| ==> IsWhiteSpace(s[i])
  }

  /** `string.IsNullOrWhiteSpace`. */
  predicate IsNullOrWhiteSpace(s: Option<string>) {
    s.None? || AllWhiteSpace(s.value)
  }

  /** An upper-case letter of the Latin-1 range: A-Z and U+00C0-U+00DE except U+00D7. */
  predicate IsUpper(c: char) {
    || 'A' <= c <= 'Z'
    || ('\U{C0}' <= c <= '\U{DE}' && c != '\U{D7}')
  }

  /** The invariant-culture lower-case mapping of one character, on the Latin-1 range. */
  function LowerChar(c: char): (r: char)
    ensures IsUpper(c) ==> r as int == c as int + 32
    ensures !IsUpper(c) ==> r == c
    ensures !IsUpper(r)
    ensures IsWhiteSpace(r) <==> IsWhiteSpace(c)
  {
    if IsUpper(c) then (c as int + 32) as char else c
  }

  /** `string.ToLowerInvariant`. */
  function ToLower(s: string): (r: string)
    ensures |r| == |s|
    ensures forall i :: 0 <= i < |s| ==> r[i] == LowerChar(s[i])
  {
    seq(|s|, i requires 0 <= i < |s| => LowerChar(s[i]))
  }

  /** Lower-casing works character by character, so it commutes with slicing. */
  lemma ToLowerSlice(s: string, a: nat, b: nat)
    requires a <= b <= |s|
    ensures ToLower(s)[a..b] == ToLower(s[a..b])
  {
  }

  /** No white-space character has a case. */
  lemma ToLowerAllWhiteSpace(s: string)
    ensures AllWhiteSpace(ToLower(s)) <==> AllWhiteSpace(s)
  {
    if AllWhiteSpace(ToLower(s)) {
      forall k | 0 <= k < |s|
        ensures IsWhiteSpace(s[k])
      {
        assert IsWhiteSpace(ToLower(s)[k]);
      }
    }
  }

  lemma ToLowerIdempotent(s: string)
    ensures ToLower(ToLower(s)) == ToLower(s)
  {
  }

  /** `string.TrimStart()`: drops the leading white space. */
  function TrimStart(s: string): (r: string)
    ensures |r| <= |s| && r == s[|s| - |r|..]
    ensures AllWhiteSpace(s[..|s| - |r|])
    ensures r == [] || !IsWhiteSpace(r[0])
  {
    if |s| > 0 && IsWhiteSpace(s[0]) then
      var r := TrimStart(s[1..]);
      DropLeading(s, r);
      r
    else s
  }

  /** One more white-space character in front keeps the trimmed suffix a
      suffix with only white space before it. */
  lemma DropLeading(s: string, r: string)
    requires |s| > 0 && IsWhiteSpace(s[0])
    requires |r| <= |s| - 1 && r == s[1..][|s| - 1 - |r|..]
    requires AllWhiteSpace(s[1..][..|s| - 1 - |r|])
    ensures r == s[|s| - |r|..]
    ensures AllWhiteSpace(s[..|s| - |r|])
  {
    var lead := s[..|s| - |r|];
    forall i | 0 <= i < |lead|
      ensures IsWhiteSpace(lead[i])
    {
      if i > 0 {
        assert lead[i] == s[1..][..|s| - 1 - |r|][i - 1];
      }
    }
  }

  /** `string.TrimEnd()`: drops the trailing white space. */
  function TrimEnd(s: string): (r: string)
    ensures |r| <= |s| && r == s[..|r|]
    ensures AllWhiteSpace(s[|r|..])
    ensures r == [] || !IsWhiteSpace(r[|r| - 1])
  {
    if |s| > 0 && IsWhiteSpace(s[|s| - 1]) then
      var r := TrimEnd(s[..|s| - 1]);
      DropTrailing(s, r);
      r
    else s
  }

  /** One more white-space character at the back keeps the trimmed prefix a
      prefix with only white space after it. */
  lemma DropTrailing(s: string, r: string)
    requires |s| > 0 && IsWhiteSpace(s[|s| - 1])
    requires |r| <= |s| - 1 && r == s[..|s| - 1][..|r|]
    requires AllWhiteSpace(s[..|s| - 1][|r|..])
    ensures r == s[..|r|]
    ensures AllWhiteSpace(s[|r|..])
  {
    var trail := s[|r|..];
    forall i | 0 <= i < |trail|
      ensures IsWhiteSpace(trail[i])
    {
      if i < |trail| - 1 {
        assert trail[i] == s[..|s| - 1][|r|..][i];
      }
    }
  }

  lemma AllWhiteSpaceConcat(a: string, b: string)
    ensures AllWhiteSpace(a + b) <==> AllWhiteSpace(a) && AllWhiteSpace(b)
  {
    var ab := a + b;
    if AllWhiteSpace(ab) {
      forall i | 0 <= i < |a|
        ensures IsWhiteSpace(a[i])
      {
        assert a[i] == ab[i];
      }
      forall i | 0 <= i < |b|
        ensures IsWhiteSpace(b[i])
      {
        assert b[i] == ab[|a| + i];
      }
    }
  }

  /** What trimming both ends yields, from what each end's trim promises:
      a slice of the text with only white space cut off either side; nothing
      is left exactly when the text is all white space, and what is left
      neither starts nor ends with white space. */
  lemma {:induction false} TrimBothEnds(s: string, t: string, r: string)
    requires |t| <= |s| && t == s[|s| - |t|..] && AllWhiteSpace(s[..|s| - |t|])
    requires t == [] || !IsWhiteSpace(t[0])
    requires |r| <= |t| && r == t[..|r|] && AllWhiteSpace(t[|r|..])
    requires r == [] || !IsWhiteSpace(r[|r| - 1])
    ensures r == [] <==> AllWhiteSpace(s)
    ensures r == [] || (!IsWhiteSpace(r[0]) && !IsWhiteSpace(r[|r| - 1]))
    ensures exists i, j :: 0 <= i <= j <= |s| && r == s[i..j] && AllWhiteSpace(s[..i]) && AllWhiteSpace(s[j..])
  {
    var lead := s[..|s| - |t|];
    var trail := t[|r|..];
    assert s == lead + t;
    assert t == r + trail;
    var i, j := |s| - |t|, |s| - |t| + |r|;
    assert r == s[i..j] && s[j..] == trail;
    AllWhiteSpaceConcat(lead, t);
    AllWhiteSpaceConcat(r, trail);
    if r == [] {
      assert t == trail;
    } else {
      assert r[0] == t[0];
    }
  }

  /** `string.Trim()`: the text with the white space at both ends cut off. */
  function Trim(s: string): (r: string)
    ensures exists i, j :: 0 <= i <= j <= |s| && r == s[i..j] && AllWhiteSpace(s[..i]) && AllWhiteSpace(s[j..])
    ensures r == [] <==> AllWhiteSpace(s)
    ensures r == [] || (!IsWhiteSpace(r[0]) && !IsWhiteSpace(r[|r| - 1]))
  {
    var t := TrimStart(s);
    var r := TrimEnd(t);
    TrimBothEnds(s, t, r);
    r
  }

  lemma TrimIdempotent(s: string)
    ensures Trim(Trim(s)) == Trim(s)
  {
  }

  lemma {:induction false} ToLowerTrimStart(s: string)
    ensures ToLower(TrimStart(s)) == TrimStart(ToLower(s))
    decreases |s|
  {
    if |s| > 0 && IsWhiteSpace(s[0]) {
      assert ToLower(s)[1..] == ToLower(s[1..]);
      ToLowerTrimStart(s[1..]);
    }
  }

  lemma {:induction false} ToLowerTrimEnd(s: string)
    ensures ToLower(TrimEnd(s)) == TrimEnd(ToLower(s))
    decreases |s|
  {
    if |s| > 0 && IsWhiteSpace(s[|s| - 1]) {
      assert ToLower(s)[..|s| - 1] == ToLower(s[..|s| - 1]);
      ToLowerTrimEnd(s[..|s| - 1]);
    }
  }

  /** Lower-casing and trimming commute, because no white-space character has a case. */
  lemma ToLowerTrim(s: string)
    ensures ToLower(Trim(s)) == Trim(ToLower(s))
  {
    ToLowerTrimStart(s);
    ToLowerTrimEnd(TrimStart(s));
  }

  // ---- Decimal digits -------------------------------------------------------

  predicate IsDigit(c: char) {
    '0' <= c <= '9'
  }

  predicate AllDigits(s: string) {
    forall i :: 0 <= i < |s| ==> IsDigit(s[i])
  }

  function DigitChar(d: nat): (c: char)
    requires d < 10
    ensures IsDigit(c) && c as int - '0' as int == d
  {
    ('0' as int + d) as char
  }

  /** The number a string of decimal digits denotes (leading zeros allowed). */
  function DigitsValue(s: string): nat
    requires AllDigits(s)
  {
    if s == [] then 0 else DigitsValue(s[..|s| - 1]) * 10 + (s[|s| - 1] as int - '0' as int)
  }

  /** `n.toString()` for a non-negative integer: its shortest decimal form. */
  function NatToString(n: nat): (r: string)
    ensures 1 <= |r| && AllDigits(r)
    ensures DigitsValue(r) == n
    ensures n < 10 ==> |r| == 1
    ensures n < 100 ==> |r| <= 2
    ensures r[0] == '0' <==> n == 0
  {
    if n < 10 then [DigitChar(n)]
    else
      var prefix := NatToString(n / 10);
      var r := prefix + [DigitChar(n % 10)];
      assert r[..|r| - 1] == prefix;
      r
  }

  /** A leading zero does not change the value of a digit string. */
  lemma {:induction false} LeadingZero(s: string)
    requires AllDigits(s)
    ensures AllDigits("0" + s) && DigitsValue("0" + s) == DigitsValue(s)
    decreases |s|
  {
    if s != [] {
      assert ("0" + s)[..|s|] == "0" + s[..|s| - 1];
      LeadingZero(s[..|s| - 1]);
    }
  }

  /** `s.padStart(width, '0')`. */
  function PadStartZeros(s: string, width: nat): (r: string)
    requires AllDigits(s)
    ensures AllDigits(r) && DigitsValue(r) == DigitsValue(s)
    ensures |r| == if |s| < width then width else |s|
    decreases width - |s|
  {
    if |s| >= width then s
    else
      LeadingZero(s);
      PadStartZeros("0" + s, width)
  }
}
