/** Python's `str.strip()` with no argument, and `str.find` for one character. */
module Text {

  /** Python's `str.isspace()` on one character. */
  predicate IsSpace(c: char) {
    || c == ' '
    || ('\t' <= c <= '\r')          // \t \n \v \f \r
    || ('\U{1c}' <= c <= '\U{1f}')  // file, group, record and unit separators
    || c == '\U{85}' || c == '\U{a0}' || c == '\U{1680}'
    || ('\U{2000}' <= c <= '\U{200a}')
    || c == '\U{2028}' || c == '\U{2029}' || c == '\U{202f}' || c == '\U{205f}' || c == '\U{3000}'
  }

  predicate AllSpace(s: string) {
    forall k :: 0 <= k < |s| ==> IsSpace(s[k])
  }

  /** Neither starts nor ends with whitespace: a fixed point of `Strip`. */
  predicate IsStripped(s: string) {
    s == [] || (!IsSpace(s[0]) && !IsSpace(s[|s| - 1]))
  }

  /** The length of the longest all-whitespace prefix of `s`. */
  function LeadingSpaces(s: string): (n: nat)
    ensures n <= |s|
    ensures AllSpace(s[..n])
    ensures n < |s| ==> !IsSpace(s[n])
  {
    if s == [] || !IsSpace(s[0]) then 0
    else
      var n := LeadingSpaces(s[1..]);
      assert s[..n + 1] == [s[0]] + s[1..][..n];
      n + 1
  }

  /** The length of the longest all-whitespace suffix of `s`. */
  function TrailingSpaces(s: string): (n: nat)
    ensures n <= |s|
    ensures AllSpace(s[|s| - n..])
    ensures n < |s| ==> !IsSpace(s[|s| - 1 - n])
  {
    if s == [] || !IsSpace(s[|s| - 1]) then 0
    else
      var front := s[..|s| - 1];
      var n := TrailingSpaces(front);
      assert s[|s| - (n + 1)..] == front[|front| - n..] + [s[|s| - 1]];
      n + 1
  }

  /** `s.strip()`: `s` without its leading and trailing whitespace. */
  function Strip(s: string): (r: string)
    ensures IsStripped(r)
    ensures |r| <= |s|
    ensures r == [] <==> AllSpace(s)
  {
    var t := s[LeadingSpaces(s)..];
    t[..|t| - TrailingSpaces(t)]
  }

  /** `Strip(s)` is the piece of `s` that lies between whitespace padding. */
  lemma StripInfix(s: string) returns (i: nat)
    ensures i + |Strip(s)| <= |s|
    ensures Strip(s) == s[i..i + |Strip(s)|]
    ensures AllSpace(s[..i]) && AllSpace(s[i + |Strip(s)|..])
  {
    i := LeadingSpaces(s);
    var t := s[i..];
    var n := TrailingSpaces(t);
    assert s[i + |Strip(s)|..] == t[|t| - n..];
  }

  /** Stripping adds no character: one missing from `s` is missing from `Strip(s)`. */
  lemma StripKeepsOut(s: string, c: char)
    requires c !in s
    ensures c !in Strip(s)
  {
    var i := StripInfix(s);
  }

  /** Stripping leaves a string that is already stripped untouched. */
  lemma StripStripped(s: string)
    requires IsStripped(s)
    ensures Strip(s) == s
  {
    assert LeadingSpaces(s) == 0;
    assert s[0..] == s;
    assert TrailingSpaces(s) == 0;
  }

  /** Stripping removes exactly the whitespace padding around a stripped text. */
  lemma {:induction false} StripPadding(p: string, s: string, q: string)
    requires AllSpace(p) && AllSpace(q) && IsStripped(s) && s != []
    ensures Strip(p + s + q) == s
  {
    var w := p + s + q;
    LeadingOfPadded(p, s + q);
    assert p + s + q == p + (s + q);
    assert w[|p|..] == s + q;
    TrailingOfPadded(s, q);
    assert (s + q)[..|s|] == s;
  }

  /** Stripping removes exactly the whitespace before a stripped text. */
  lemma StripLeadingPad(p: string, s: string)
    requires AllSpace(p) && IsStripped(s) && s != []
    ensures Strip(p + s) == s
  {
    StripPadding(p, s, []);
    assert p + s + [] == p + s;
  }

  /** Stripping removes exactly the whitespace after a stripped text. */
  lemma StripTrailingPad(s: string, q: string)
    requires AllSpace(q) && IsStripped(s) && s != []
    ensures Strip(s + q) == s
  {
    StripPadding([], s, q);
    assert [] + s + q == s + q;
  }

  lemma {:induction false} LeadingOfPadded(p: string, s: string)
    requires AllSpace(p) && s != [] && !IsSpace(s[0])
    ensures LeadingSpaces(p + s) == |p|
  {
    if p != [] {
      assert (p + s)[1..] == p[1..] + s;
      LeadingOfPadded(p[1..], s);
    } else {
      assert p + s == s;
    }
  }

  lemma {:induction false} TrailingOfPadded(s: string, q: string)
    requires AllSpace(q) && s != [] && !IsSpace(s[|s| - 1])
    ensures TrailingSpaces(s + q) == |q|
  {
    if q != [] {
      assert (s + q)[..|s + q| - 1] == s + q[..|q| - 1];
      TrailingOfPadded(s, q[..|q| - 1]);
    } else {
      assert s + q == s;
    }
  }

  /** Stripping twice is stripping once. */
  lemma StripIdempotent(s: string)
    ensures Strip(Strip(s)) == Strip(s)
  {
    StripStripped(Strip(s));
  }

  /** The first occurrence of `c` is where `IndexOf` finds it. */
  lemma IndexOfFirst(s: string, c: char, i: nat)
    requires i < |s| && s[i] == c && c !in s[..i]
    ensures IndexOf(s, c) == i
  {
  }

  /** `s.index(c)`: the position of the first occurrence of `c`. */
  function IndexOf(s: string, c: char): (i: nat)
    requires c in s
    ensures i < |s| && s[i] == c
    ensures c !in s[..i]
  {
    if s[0] == c then 0
    else
      assert c in s[1..] by { assert s == [s[0]] + s[1..]; }
      var j := IndexOf(s[1..], c);
      assert s[..j + 1] == [s[0]] + s[1..][..j];
      1 + j
  }
}
