/**
 * The JavaScript string operations the analyzer relies on (`startsWith`, `indexOf`,
 * `trim`, character-code range tests), stated on sequences of characters.
 */
module Text {

  /** `s.startsWith(prefix)`. */
  predicate StartsWith(s: string, prefix: string)
  {
    |prefix| <= |s| && s[..|prefix|] == prefix
  }

  /** A character code between 65 ('A') and 90 ('Z'). */
  predicate IsUpperAscii(c: char)
  {
    'A' <= c <= 'Z'
  }

  /** `pattern` occurs in `text` starting at index `i`. */
  predicate OccursAt(text: string, pattern: string, i: int)
  {
    0 <= i && i + |pattern| <= |text| && text[i..i + |pattern|] == pattern
  }

  /** `text.indexOf(pattern)`: the first index where `pattern` occurs, or -1 when it does not occur. */
  function IndexOf(text: string, pattern: string): (r: int)
    ensures -1 <= r <= |text|
    ensures r >= 0 ==> OccursAt(text, pattern, r)
    ensures forall j :: 0 <= j && (r < 0 || j < r) ==> !OccursAt(text, pattern, j)
  {
    IndexOfFrom(text, pattern, 0)
  }

  function IndexOfFrom(text: string, pattern: string, from: nat): (r: int)
    requires from <= |text|
    ensures r == -1 || from <= r <= |text|
    ensures r >= 0 ==> OccursAt(text, pattern, r)
    ensures forall j :: from <= j && (r < 0 || j < r) ==> !OccursAt(text, pattern, j)
    decreases |text| - from
  {
    if OccursAt(text, pattern, from) then from
    else if from == |text| then -1
    else IndexOfFrom(text, pattern, from + 1)
  }

  /** The characters `String.prototype.trim` removes: white space and line terminators. */
  predicate IsWhitespace(c: char)
  {
    || c == '\t' || c == '\U{B}' || c == '\U{C}' || c == ' ' || c == '\U{A0}' || c == '\U{FEFF}'
    || c == '\n' || c == '\r' || c == '\U{2028}' || c == '\U{2029}'
    || c == '\U{1680}' || ('\U{2000}' <= c <= '\U{200A}') || c == '\U{202F}' || c == '\U{205F}' || c == '\U{3000}'
  }

  /** `s` without its leading white space. */
  function TrimStart(s: string): (r: string)
    ensures |r| <= |s| && r == s[|s| - |r|..]
    ensures forall k :: 0 <= k < |s| - |r| ==> IsWhitespace(s[k])
    ensures r == [] || !IsWhitespace(r[0])
  {
    if s != [] && IsWhitespace(s[0]) then TrimStart(s[1..]) else s
  }

  /** `s` without its trailing white space. */
  function TrimEnd(s: string): (r: string)
    ensures |r| <= |s| && r == s[..|r|]
    ensures forall k :: |r| <= k < |s| ==> IsWhitespace(s[k])
    ensures r == [] || !IsWhitespace(r[|r| - 1])
  {
    if s != [] && IsWhitespace(s[|s| - 1]) then TrimEnd(s[..|s| - 1]) else s
  }

  /** `r` is `s[i..j]`, and everything of `s` outside it is white space. */
  predicate TrimmedTo(s: string, i: int, j: int, r: string)
  {
    && 0 <= i <= j <= |s| && r == s[i..j]
    && (forall k :: 0 <= k < i ==> IsWhitespace(s[k]))
    && (forall k :: j <= k < |s| ==> IsWhitespace(s[k]))
  }

  /** `s.trim()`: a contiguous part of `s`, empty exactly when `s` is all white space. */
  function Trim(s: string): (r: string)
    ensures |r| <= |s|
    ensures exists i, j :: TrimmedTo(s, i, j, r)
    ensures r == [] <==> forall k :: 0 <= k < |s| ==> IsWhitespace(s[k])
    ensures r != [] ==> !IsWhitespace(r[0]) && !IsWhitespace(r[|r| - 1])
  {
    TrimEmpty(s);
    TrimEnds(s);
    TrimPart(s);
    TrimEnd(TrimStart(s))
  }

  /** Trimming keeps one contiguous part of `s` and removes only white space around it. */
  lemma TrimPart(s: string)
    ensures exists i, j :: TrimmedTo(s, i, j, TrimEnd(TrimStart(s)))
  {
    var t := TrimStart(s);
    var r := TrimEnd(t);
    var i := |s| - |t|;
    var j := i + |r|;
    assert r == s[i..j];
    forall k | j <= k < |s|
      ensures IsWhitespace(s[k])
    {
      assert s[k] == t[k - i];
    }
    assert TrimmedTo(s, i, j, r);
  }

  /** What trimming leaves neither starts nor ends with white space. */
  lemma TrimEnds(s: string)
    ensures |TrimEnd(TrimStart(s))| <= |s|
    ensures var r := TrimEnd(TrimStart(s)); r != [] ==> !IsWhitespace(r[0]) && !IsWhitespace(r[|r| - 1])
  {
    var t := TrimStart(s);
    var r := TrimEnd(t);
    if r != [] {
      assert r[0] == t[0];
    }
  }

  /** Trimming leaves nothing exactly when every character is white space. */
  lemma TrimEmpty(s: string)
    ensures TrimEnd(TrimStart(s)) == [] <==> forall k :: 0 <= k < |s| ==> IsWhitespace(s[k])
  {
    var t := TrimStart(s);
    if TrimEnd(t) != [] {
      assert s[|s| - |t|] == t[0];
    }
  }

  /**
   * Ordinal string comparison by character code, with a proper prefix first: negative,
   * zero or positive as `a` sorts before, with or after `b`.
   */
  function CompareOrdinal(a: string, b: string): (r: int)
    ensures -1 <= r <= 1
  {
    if a == [] && b == [] then 0
    else if a == [] then -1
    else if b == [] then 1
    else if a[0] < b[0] then -1
    else if a[0] > b[0] then 1
    else CompareOrdinal(a[1..], b[1..])
  }

  /** Only equal strings compare equal. */
  lemma {:induction false} CompareOrdinalZero(a: string, b: string)
    ensures CompareOrdinal(a, b) == 0 <==> a == b
    decreases |a|
  {
    if a != [] && b != [] && a[0] == b[0] {
      CompareOrdinalZero(a[1..], b[1..]);
      assert a == [a[0]] + a[1..] && b == [b[0]] + b[1..];
    }
  }

  /** Swapping the operands flips the sign. */
  lemma {:induction false} CompareOrdinalFlip(a: string, b: string)
    ensures CompareOrdinal(b, a) == -CompareOrdinal(a, b)
    decreases |a|
  {
    if a != [] && b != [] && a[0] == b[0] {
      CompareOrdinalFlip(a[1..], b[1..]);
    }
  }

  lemma {:induction false} CompareOrdinalTransitive(a: string, b: string, c: string)
    requires CompareOrdinal(a, b) <= 0 && CompareOrdinal(b, c) <= 0
    ensures CompareOrdinal(a, c) <= 0
    decreases |a|
  {
    if a != [] && b != [] && c != [] && a[0] == b[0] && b[0] == c[0] {
      CompareOrdinalTransitive(a[1..], b[1..], c[1..]);
    }
  }
}
