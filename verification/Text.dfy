/** String helpers with the semantics of the engine's `FString` operations that
    the bridge relies on: ASCII case folding for its case-insensitive
    comparisons, whitespace trimming, decimal formatting of integers and
    first-occurrence search. */
module Text {
  import opened Wrappers

  // ---------------------------------------------------------------------------
  // Case folding

  /** The engine folds only the ASCII letters A-Z; every other character
      compares as itself. */
  function LowerChar(c: char): char {
    if 'A' <= c <= 'Z' then (c as int + 32) as char else c
  }

  function Lower(s: string): (r: string)
    ensures |r| == |s|
    ensures forall i :: 0 <= i < |s| ==> r[i] == LowerChar(s[i])
  {
    seq(|s|, i requires 0 <= i < |s| => LowerChar(s[i]))
  }

  /** `FString::Equals(.., ESearchCase::IgnoreCase)` and `FString ==`. */
  predicate EqualsIgnoreCase(a: string, b: string) {
    |a| == |b| && forall i :: 0 <= i < |a| ==> LowerChar(a[i]) == LowerChar(b[i])
  }

  /** Comparing ignoring case is comparing the lower-cased strings. */
  lemma EqualsIgnoreCaseIffLowerEqual(a: string, b: string)
    ensures EqualsIgnoreCase(a, b) <==> Lower(a) == Lower(b)
  {
    if Lower(a) == Lower(b) {
      assert |a| == |b|;
      forall i | 0 <= i < |a|
        ensures LowerChar(a[i]) == LowerChar(b[i])
      {
        assert Lower(a)[i] == Lower(b)[i];
      }
    }
  }

  /** `FString::StartsWith` with its default case-insensitive search. */
  predicate StartsWithIgnoreCase(s: string, prefix: string) {
    |prefix| <= |s| && EqualsIgnoreCase(s[..|prefix|], prefix)
  }

  // ---------------------------------------------------------------------------
  // Search

  predicate OccursAt(s: string, pattern: string, i: nat) {
    i + |pattern| <= |s| && s[i..i + |pattern|] == pattern
  }

  /** `FString::Find(.., ESearchCase::CaseSensitive)`: the first index at which
      `pattern` occurs, or None. */
  function IndexOf(s: string, pattern: string): (r: Option<nat>)
    ensures r.Some? ==> OccursAt(s, pattern, r.value)
    ensures r.Some? ==> forall j :: 0 <= j < r.value ==> !OccursAt(s, pattern, j)
    ensures r.None? ==> forall j :: 0 <= j ==> !OccursAt(s, pattern, j)
    decreases |s|
  {
    if |s| < |pattern| then None
    else if s[..|pattern|] == pattern then Some(0)
    else
      var rest := IndexOf(s[1..], pattern);
      ShiftOccurrence(s, pattern);
      assert !OccursAt(s, pattern, 0);
      if rest.Some? then Some(rest.value + 1) else None
  }

  /** An occurrence past the first position is an occurrence in the tail. */
  lemma ShiftOccurrence(s: string, pattern: string)
    requires |s| > 0
    ensures forall j: nat :: j >= 1 ==> (OccursAt(s, pattern, j) <==> OccursAt(s[1..], pattern, j - 1))
  {
    forall j: nat | j >= 1
      ensures OccursAt(s, pattern, j) <==> OccursAt(s[1..], pattern, j - 1)
    {
      if j + |pattern| <= |s| {
        assert s[1..][j - 1..j - 1 + |pattern|] == s[j..j + |pattern|];
      }
    }
  }

  /** An optional position moved on by `k`. */
  function Shift(r: Option<nat>, k: nat): Option<nat> {
    if r.Some? then Some(r.value + k) else None
  }

  /** Skipping a prefix in which no occurrence starts shifts the first
      occurrence by the prefix length. */
  lemma {:induction false} IndexOfAfterPrefix(a: string, t: string, pattern: string)
    requires forall j :: 0 <= j < |a| ==> !OccursAt(a + t, pattern, j)
    ensures IndexOf(a + t, pattern) == Shift(IndexOf(t, pattern), |a|)
    decreases |a|
  {
    if |a| == 0 {
      assert a + t == t;
    } else {
      var s := a + t;
      NoOccurrenceInTail(a, t, pattern);
      assert s[1..] == a[1..] + t;
      calc {
        IndexOf(s, pattern);
        { TailIndex(s, pattern); }
        Shift(IndexOf(s[1..], pattern), 1);
        Shift(IndexOf(a[1..] + t, pattern), 1);
        { IndexOfAfterPrefix(a[1..], t, pattern); }
        Shift(Shift(IndexOf(t, pattern), |a| - 1), 1);
        Shift(IndexOf(t, pattern), |a|);
      }
    }
  }

  /** Where no occurrence starts at the front, the first occurrence is one
      past the first occurrence in the tail. */
  lemma TailIndex(s: string, pattern: string)
    requires |s| > 0 && !OccursAt(s, pattern, 0)
    ensures IndexOf(s, pattern) == Shift(IndexOf(s[1..], pattern), 1)
  {
    if |s| >= |pattern| {
      assert s[..|pattern|] != pattern;
    }
  }

  /** The hypothesis of `IndexOfAfterPrefix` carries over to the tail. */
  lemma NoOccurrenceInTail(a: string, t: string, pattern: string)
    requires |a| > 0
    requires forall j :: 0 <= j < |a| ==> !OccursAt(a + t, pattern, j)
    ensures forall j :: 0 <= j < |a[1..]| ==> !OccursAt(a[1..] + t, pattern, j)
  {
    var s := a + t;
    assert s[1..] == a[1..] + t;
    ShiftOccurrence(s, pattern);
    forall j | 0 <= j < |a[1..]|
      ensures !OccursAt(a[1..] + t, pattern, j)
    {
      assert !OccursAt(s, pattern, j + 1);
    }
  }

  /** `FString::Contains` with its default case-insensitive search. */
  predicate ContainsIgnoreCase(s: string, part: string) {
    IndexOf(Lower(s), Lower(part)).Some?
  }

  // ---------------------------------------------------------------------------
  // Whitespace

  /** The ASCII whitespace characters: space, tab, line feed, vertical tab,
      form feed and carriage return. */
  predicate IsWhitespace(c: char) {
    c == ' ' || c == '\t' || c == '\n' || c == 11 as char || c == 12 as char || c == '\r'
  }

  /** The first position at or after `i` that is not whitespace, or the end. */
  function SkipWhitespace(s: string, i: nat): (k: nat)
    requires i <= |s|
    ensures i <= k <= |s|
    ensures forall j :: i <= j < k ==> IsWhitespace(s[j])
    ensures k == |s| || !IsWhitespace(s[k])
    decreases |s| - i
  {
    if i < |s| && IsWhitespace(s[i]) then SkipWhitespace(s, i + 1) else i
  }

  /** The end of `s[lo..hi]` once its trailing whitespace is dropped. */
  function SkipWhitespaceBack(s: string, lo: nat, hi: nat): (k: nat)
    requires lo <= hi <= |s|
    ensures lo <= k <= hi
    ensures forall j :: k <= j < hi ==> IsWhitespace(s[j])
    ensures k == lo || !IsWhitespace(s[k - 1])
    decreases hi - lo
  {
    if lo < hi && IsWhitespace(s[hi - 1]) then SkipWhitespaceBack(s, lo, hi - 1) else hi
  }

  /** `FString::TrimStartAndEnd`: the slice of `s` after its leading
      whitespace that neither starts nor ends with whitespace, with only
      whitespace around it. */
  function TrimStartAndEnd(s: string): (r: string)
    ensures var lo := SkipWhitespace(s, 0); lo + |r| <= |s| && r == s[lo..lo + |r|] && Trimmed(s, lo, lo + |r|)
    ensures r == [] || (!IsWhitespace(r[0]) && !IsWhitespace(r[|r| - 1]))
  {
    var lo := SkipWhitespace(s, 0);
    var hi := SkipWhitespaceBack(s, lo, |s|);
    assert forall j :: 0 <= j < lo ==> IsWhitespace(s[j]);
    s[lo..hi]
  }

  /** Trimming a trimmed string changes nothing. */
  lemma TrimIdempotent(s: string)
    ensures TrimStartAndEnd(TrimStartAndEnd(s)) == TrimStartAndEnd(s)
  {
    var t := TrimStartAndEnd(s);
    if t != [] {
      assert SkipWhitespace(t, 0) == 0;
      assert SkipWhitespaceBack(t, 0, |t|) == |t|;
      assert t[0..|t|] == t;
    }
  }

  /** Only whitespace lies outside `s[lo..hi]`. */
  predicate Trimmed(s: string, lo: nat, hi: nat)
    requires lo <= hi <= |s|
  {
    (forall i :: 0 <= i < lo ==> IsWhitespace(s[i])) && (forall i :: hi <= i < |s| ==> IsWhitespace(s[i]))
  }

  // ---------------------------------------------------------------------------
  // Decimal formatting (`FString::FromInt`, `%d`)

  predicate IsDigit(c: char) {
    '0' <= c <= '9'
  }

  function DigitChar(d: nat): (c: char)
    requires d < 10
    ensures IsDigit(c)
  {
    ('0' as int + d) as char
  }

  function NatToString(n: nat): (r: string)
    ensures |r| >= 1
    ensures forall i :: 0 <= i < |r| ==> IsDigit(r[i])
  {
    if n < 10 then [DigitChar(n)] else NatToString(n / 10) + [DigitChar(n % 10)]
  }

  /** Reads a decimal digit string back as a number (empty reads as 0). */
  function ParseDigits(s: string): nat
    requires forall i :: 0 <= i < |s| ==> IsDigit(s[i])
  {
    if |s| == 0 then 0
    else
      var last := s[|s| - 1];
      assert IsDigit(last);
      ParseDigits(s[..|s| - 1]) * 10 + (last as int - '0' as int)
  }

  /** Decimal formatting is undone by reading the digits back. */
  lemma {:induction false} ParseNatToString(n: nat)
    ensures ParseDigits(NatToString(n)) == n
  {
    var r := NatToString(n);
    if n >= 10 {
      var front := NatToString(n / 10);
      assert r[..|r| - 1] == front;
      ParseNatToString(n / 10);
    }
  }

  /** Different numbers never print the same. */
  lemma NatToStringInjective(a: nat, b: nat)
    ensures NatToString(a) == NatToString(b) ==> a == b
  {
    ParseNatToString(a);
    ParseNatToString(b);
  }

  /** Signed decimal formatting, with a leading '-' for negative values. */
  function IntToString(i: int): (r: string)
    ensures i >= 0 ==> r == NatToString(i)
    ensures i < 0 ==> |r| >= 2 && r[0] == '-' && r[1..] == NatToString(-i)
  {
    if i < 0 then "-" + NatToString(-i) else NatToString(i)
  }
}
