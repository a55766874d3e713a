/** String helpers with the meaning Python gives them: `str.strip()` with no
    argument, `f"{n}"` for an integer, slicing `s[:n]`, and `t in s`. */
module Text {
  import opened Outcomes

  /** The characters for which Python's `str.isspace()` holds; `str.strip()`
      with no argument removes exactly these from both ends. */
  predicate IsSpace(c: char) {
    c in {' ', '\t', '\n', '\r', '\U{0B}', '\U{0C}', '\U{1C}', '\U{1D}', '\U{1E}', '\U{1F}',
          '\U{85}', '\U{A0}', '\U{1680}', '\U{2000}', '\U{2001}', '\U{2002}', '\U{2003}',
          '\U{2004}', '\U{2005}', '\U{2006}', '\U{2007}', '\U{2008}', '\U{2009}', '\U{200A}',
          '\U{2028}', '\U{2029}', '\U{202F}', '\U{205F}', '\U{3000}'}
  }

  predicate AllSpace(s: string) {
    forall k :: 0 <= k < |s| ==> IsSpace(s[k])
  }

  /** `r` sits in `s` at index `i` with only whitespace around it. */
  predicate StripsAt(s: string, r: string, i: int) {
    && 0 <= i && i + |r| <= |s|
    && s[i..i + |r|] == r
    && AllSpace(s[..i])
    && AllSpace(s[i + |r|..])
  }

  /** The meaning of `s.strip()`: a slice of `s` that neither starts nor ends
      with whitespace, and outside of which `s` holds only whitespace. */
  ghost predicate StrippedFrom(s: string, r: string) {
    && (|r| > 0 ==> !IsSpace(r[0]) && !IsSpace(r[|r| - 1]))
    && exists i :: StripsAt(s, r, i)
  }

  function TrimStart(s: string): (r: string)
    ensures |r| <= |s| && r == s[|s| - |r|..]
    ensures AllSpace(s[..|s| - |r|])
    ensures |r| > 0 ==> !IsSpace(r[0])
  {
    if |s| > 0 && IsSpace(s[0]) then TrimStart(s[1..]) else s
  }

  function TrimEnd(s: string): (r: string)
    ensures |r| <= |s| && r == s[..|r|]
    ensures AllSpace(s[|r|..])
    ensures |r| > 0 ==> !IsSpace(r[|r| - 1])
  {
    if |s| > 0 && IsSpace(s[|s| - 1]) then TrimEnd(s[..|s| - 1]) else s
  }

  /** Python's `s.strip()`. */
  function Strip(s: string): (r: string)
    ensures StrippedFrom(s, r)
  {
    var r := TrimEnd(TrimStart(s));
    StripWitness(s);
    r
  }

  lemma StripWitness(s: string)
    ensures StrippedFrom(s, TrimEnd(TrimStart(s)))
  {
    var t := TrimStart(s);
    var r := TrimEnd(t);
    var i := |s| - |t|;
    assert s[i..i + |r|] == r;
    assert s[i + |r|..] == t[|r|..];
    assert StripsAt(s, r, i);
  }

  /** What `StripsAt` says, index by index. */
  lemma StripsAtIndices(s: string, r: string, i: int)
    requires StripsAt(s, r, i)
    ensures forall k :: 0 <= k < i ==> IsSpace(s[k])
    ensures forall k :: i + |r| <= k < |s| ==> IsSpace(s[k])
    ensures forall k :: 0 <= k < |r| ==> s[i + k] == r[k]
  {
    assert forall k :: 0 <= k < i ==> s[..i][k] == s[k];
    assert forall k :: i + |r| <= k < |s| ==> s[i + |r|..][k - i - |r|] == s[k];
    forall k | 0 <= k < |r|
      ensures s[i + k] == r[k]
    {
      assert s[i..i + |r|][k] == s[i + k];
    }
  }

  /** Stripping yields the empty string exactly when the input is all whitespace. */
  lemma StripEmpty(s: string)
    ensures Strip(s) == "" <==> AllSpace(s)
  {
    var r := Strip(s);
    var i :| StripsAt(s, r, i);
    StripsAtIndices(s, r, i);
    if r != "" {
      assert s[i + 0] == r[0];
    }
  }

  /** Two slices that both meet the meaning of `strip()` are the same slice. */
  lemma StrippedUnique(s: string, r: string, t: string)
    requires StrippedFrom(s, r) && StrippedFrom(s, t)
    ensures r == t
  {
    var i :| StripsAt(s, r, i);
    var j :| StripsAt(s, t, j);
    StripsAtIndices(s, r, i);
    StripsAtIndices(s, t, j);
    if |r| > 0 && |t| > 0 {
      assert s[i + 0] == r[0] && s[j + 0] == t[0];
      assert i == j;
      assert s[i + (|r| - 1)] == r[|r| - 1] && s[j + (|t| - 1)] == t[|t| - 1];
      assert |r| == |t|;
    }
  }

  /** `Strip` is the only function with the meaning of `strip()`, and
      stripping twice changes nothing. */
  lemma StripIsStrip(s: string, r: string)
    requires StrippedFrom(s, r)
    ensures r == Strip(s)
    ensures Strip(r) == r
  {
    StrippedUnique(s, r, Strip(s));
    assert StripsAt(r, r, 0) by {
      assert r[0..|r|] == r;
    }
    StrippedUnique(r, r, Strip(r));
  }

  // ---- Decimal text of integers, as `f"{n}"` and `str(n)` write it ----

  predicate IsDigit(c: char) {
    '0' <= c <= '9'
  }

  predicate AllDigits(s: string) {
    forall k :: 0 <= k < |s| ==> IsDigit(s[k])
  }

  function DigitChar(d: nat): (c: char)
    requires d < 10
    ensures IsDigit(c)
  {
    ('0' as int + d) as char
  }

  function DigitValue(c: char): (d: nat)
    requires IsDigit(c)
    ensures d < 10 && DigitChar(d) == c
  {
    c as int - '0' as int
  }

  /** Decimal digits of `n`, most significant first, without leading zeros. */
  function NatText(n: nat): (r: string)
    ensures |r| > 0 && AllDigits(r)
    ensures |r| > 1 ==> r[0] != '0'
  {
    if n < 10 then [DigitChar(n)] else NatText(n / 10) + [DigitChar(n % 10)]
  }

  /** `f"{i}"` for a Python int. */
  function IntText(i: int): (r: string)
    ensures |r| > 0
  {
    if i < 0 then "-" + NatText(-i) else NatText(i)
  }

  function ParseNat(s: string): nat
    requires AllDigits(s)
  {
    if |s| == 0 then 0 else ParseNat(s[..|s| - 1]) * 10 + DigitValue(s[|s| - 1])
  }

  /** Reads back an optionally signed decimal integer. */
  function ParseInt(s: string): Option<int> {
    if |s| > 1 && s[0] == '-' && AllDigits(s[1..]) then
      var magnitude: int := ParseNat(s[1..]);
      Some(-magnitude)
    else if |s| > 0 && AllDigits(s) then Some(ParseNat(s))
    else None
  }

  lemma {:induction false} NatTextRoundTrip(n: nat)
    ensures ParseNat(NatText(n)) == n
  {
    var d := DigitChar(n % 10);
    assert DigitValue(d) == n % 10;
    if n >= 10 {
      var p := NatText(n / 10);
      assert (p + [d])[..|p + [d]| - 1] == p;
      NatTextRoundTrip(n / 10);
    } else {
      assert [d][..0] == [];
    }
  }

  /** The decimal text of an integer names that integer: it reads back as it. */
  lemma IntTextRoundTrip(i: int)
    ensures ParseInt(IntText(i)) == Some(i)
  {
    if i < 0 {
      NatTextRoundTrip(-i);
      assert IntText(i)[1..] == NatText(-i);
    } else {
      NatTextRoundTrip(i);
    }
  }

  // ---- Substrings and prefixes ----

  predicate OccursAt(s: string, t: string, i: int) {
    0 <= i && i + |t| <= |s| && s[i..i + |t|] == t
  }

  /** Python's `t in s` for strings. */
  ghost predicate Contains(s: string, t: string) {
    exists i :: OccursAt(s, t, i)
  }

  /** `t` occurs in `a + t + b`. */
  lemma ContainsMiddle(a: string, t: string, b: string)
    ensures Contains(a + t + b, t)
  {
    assert (a + t + b)[|a|..|a| + |t|] == t;
    assert OccursAt(a + t + b, t, |a|);
  }

  /** Python's `s[:n]` for `n >= 0`. */
  function Truncate(s: string, n: nat): (r: string)
    ensures r <= s
    ensures |r| == if |s| < n then |s| else n
  {
    if |s| <= n then s else s[..n]
  }
}
