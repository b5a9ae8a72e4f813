/** JavaScript string whitespace: the character class `\s` of a regular
    expression and `String.prototype.trim`, which both use the WhiteSpace and
    LineTerminator characters of ECMAScript. */
module Text {

  const Whitespace: set<char> := {
    ' ', '\t', '\n', '\U{000B}', '\U{000C}', '\r', '\U{00A0}', '\U{1680}',
    '\U{2000}', '\U{2001}', '\U{2002}', '\U{2003}', '\U{2004}', '\U{2005}',
    '\U{2006}', '\U{2007}', '\U{2008}', '\U{2009}', '\U{200A}',
    '\U{2028}', '\U{2029}', '\U{202F}', '\U{205F}', '\U{3000}', '\U{FEFF}'
  }

  predicate IsSpace(c: char) {
    c in Whitespace
  }

  ghost predicate AllSpace(s: string) {
    forall i :: 0 <= i < |s| ==> IsSpace(s[i])
  }

  /** The index of the first character at or after `i` that is not
      whitespace, or `|s|` when there is none. */
  function SkipSpaces(s: string, i: nat): (n: nat)
    requires i <= |s|
    ensures i <= n <= |s|
    ensures forall k :: i <= k < n ==> IsSpace(s[k])
    ensures n == |s| || !IsSpace(s[n])
    decreases |s| - i
  {
    if i < |s| && IsSpace(s[i]) then SkipSpaces(s, i + 1) else i
  }

  /** The first non-whitespace index is the only index with its two defining properties. */
  lemma SkipSpacesAt(s: string, i: nat, n: nat)
    requires i <= n <= |s|
    requires forall k :: i <= k < n ==> IsSpace(s[k])
    requires n == |s| || !IsSpace(s[n])
    ensures SkipSpaces(s, i) == n
  {
  }

  /** Text whose two ends are not whitespace is its own trim. */
  lemma TrimOfTrimmed(s: string)
    requires s == [] || (!IsSpace(s[0]) && !IsSpace(s[|s| - 1]))
    ensures Trim(s) == s
  {
    if s != [] {
      SkipSpacesAt(s, 0, 0);
    }
  }

  /** Scanning down from `j`, the index just past the last character that is
      not whitespace, or `lo` when `s[lo..j]` is all whitespace. */
  function SkipSpacesBack(s: string, lo: nat, j: nat): (n: nat)
    requires lo <= j <= |s|
    ensures lo <= n <= j
    ensures forall k :: n <= k < j ==> IsSpace(s[k])
    ensures n == lo || !IsSpace(s[n - 1])
    decreases j
  {
    if lo < j && IsSpace(s[j - 1]) then SkipSpacesBack(s, lo, j - 1) else j
  }

  /** `s.trim()`: the slice between the leading and the trailing run of
      whitespace, which is empty or starts and ends with a character that
      is not whitespace. */
  function Trim(s: string): (r: string)
    ensures var a := SkipSpaces(s, 0);
      && a + |r| <= |s| && r == s[a..a + |r|]
      && (forall k :: 0 <= k < a ==> IsSpace(s[k]))
      && (forall k :: a + |r| <= k < |s| ==> IsSpace(s[k]))
    ensures r == [] || (!IsSpace(r[0]) && !IsSpace(r[|r| - 1]))
  {
    var a := SkipSpaces(s, 0);
    s[a..SkipSpacesBack(s, a, |s|)]
  }

  /** `s.trim()` is falsy: the string is empty once trimmed, which is
      the case exactly when every one of its characters is whitespace. */
  function Blank(s: string): (b: bool)
    ensures b <==> AllSpace(s)
  {
    TrimEmptyIffAllSpace(s);
    Trim(s) == []
  }

  /** Trimming leaves nothing exactly when every character is whitespace. */
  lemma {:induction false} TrimEmptyIffAllSpace(s: string)
    ensures Trim(s) == [] <==> AllSpace(s)
  {
    var a, r := SkipSpaces(s, 0), Trim(s);
    if r != [] {
      assert r[0] == s[a];
    }
  }
}
