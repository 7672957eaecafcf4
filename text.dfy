/** The JavaScript string operations the chat code relies on:
    `trim`, the `\s` character class, `split` on a literal separator,
    `startsWith`/`endsWith` and `substring`. Strings are sequences of
    characters. */
module Text {
  import opened Wrappers

  /** The characters matched by the regular-expression class `\s` and
      removed by `String.prototype.trim`: white space and line terminators. */
  predicate IsSpace(c: char) {
    || c == ' ' || c == '\t' || c == '\n' || c == '\U{000B}' || c == '\U{000C}' || c == '\r'
    || c == '\U{00A0}' || c == '\U{1680}' || ('\U{2000}' <= c <= '\U{200A}')
    || c == '\U{2028}' || c == '\U{2029}' || c == '\U{202F}' || c == '\U{205F}'
    || c == '\U{3000}' || c == '\U{FEFF}'
  }

  /** The characters the regular-expression `.` does not match. */
  predicate IsLineTerminator(c: char) {
    c == '\n' || c == '\r' || c == '\U{2028}' || c == '\U{2029}'
  }

  /** Concatenation of a sequence of strings. */
  function Flatten(parts: seq<string>): string {
    if parts == [] then "" else parts[0] + Flatten(parts[1..])
  }

  lemma {:induction false} FlattenAppend(a: seq<string>, b: seq<string>)
    ensures Flatten(a + b) == Flatten(a) + Flatten(b)
  {
    if a != [] {
      assert (a + b)[1..] == a[1..] + b;
      FlattenAppend(a[1..], b);
    } else {
      assert a + b == b;
    }
  }

  /** Number of white-space characters at the start of `s`. */
  function LeadingSpaces(s: string): (n: nat)
    ensures n <= |s|
    ensures forall i :: 0 <= i < n ==> IsSpace(s[i])
    ensures n == |s| || !IsSpace(s[n])
  {
    if s != [] && IsSpace(s[0]) then 1 + LeadingSpaces(s[1..]) else 0
  }

  /** Number of white-space characters at the end of `s`. */
  function TrailingSpaces(s: string): (n: nat)
    ensures n <= |s|
    ensures forall i :: |s| - n <= i < |s| ==> IsSpace(s[i])
    ensures n == |s| || !IsSpace(s[|s| - n - 1])
  {
    if s != [] && IsSpace(s[|s| - 1]) then 1 + TrailingSpaces(s[..|s| - 1]) else 0
  }

  /** `s.trim()`: the text between the leading and the trailing white space. */
  function Trim(s: string): (r: string)
    ensures LeadingSpaces(s) + |r| <= |s|
    ensures r == s[LeadingSpaces(s)..LeadingSpaces(s) + |r|]
    ensures forall i :: LeadingSpaces(s) + |r| <= i < |s| ==> IsSpace(s[i])
    ensures r != [] ==> !IsSpace(r[0]) && !IsSpace(r[|r| - 1])
    ensures r == [] <==> forall i :: 0 <= i < |s| ==> IsSpace(s[i])
  {
    var rest := s[LeadingSpaces(s)..];
    rest[..|rest| - TrailingSpaces(rest)]
  }

  lemma TrimKeepsUnpaddedText(s: string)
    requires s != [] && !IsSpace(s[0]) && !IsSpace(s[|s| - 1])
    ensures Trim(s) == s
  {
    assert LeadingSpaces(s) == 0;
    assert TrailingSpaces(s[LeadingSpaces(s)..]) == 0;
  }

  /** `!s.trim()`: the string is empty once trimmed. */
  predicate IsBlank(s: string) {
    Trim(s) == ""
  }

  predicate StartsWith(s: string, prefix: string) {
    |prefix| <= |s| && s[..|prefix|] == prefix
  }

  predicate EndsWith(s: string, suffix: string) {
    |suffix| <= |s| && s[|s| - |suffix|..] == suffix
  }

  /** An index argument of `substring` brought into `0..n`. */
  function Clamp(i: int, n: nat): (c: nat)
    ensures c <= n
    ensures 0 <= i <= n ==> c == i
    ensures i < 0 ==> c == 0
    ensures n < i ==> c == n
  {
    if i < 0 then 0 else if i > n then n else i
  }

  /** `s.substring(start, end)`: both ends are clamped to the string and
      swapped when `start` is the larger one. */
  function Substring(s: string, start: int, end: int): (r: string)
    ensures |r| <= |s|
    ensures 0 <= start <= end <= |s| ==> r == s[start..end]
    ensures 0 <= end <= start <= |s| ==> r == s[end..start]
    ensures Clamp(start, |s|) <= Clamp(end, |s|) ==> r == s[Clamp(start, |s|)..Clamp(end, |s|)]
    ensures Clamp(end, |s|) <= Clamp(start, |s|) ==> r == s[Clamp(end, |s|)..Clamp(start, |s|)]
  {
    var a, b := Clamp(start, |s|), Clamp(end, |s|);
    if a <= b then s[a..b] else s[b..a]
  }

  /** The order of the two bounds does not matter, and a bound outside the
      string acts as the nearer end of it. */
  lemma SubstringIgnoresOrderAndRange(s: string, start: int, end: int)
    ensures Substring(s, start, end) == Substring(s, end, start)
    ensures Substring(s, start, end) == Substring(s, Clamp(start, |s|), Clamp(end, |s|))
  {
  }

  predicate OccursAt(s: string, sep: string, i: nat) {
    i + |sep| <= |s| && s[i..i + |sep|] == sep
  }

  predicate Contains(s: string, sep: string) {
    exists i: nat :: i <= |s| && OccursAt(s, sep, i)
  }

  /** The first occurrence of `sep` in `s` at or after `from`. */
  function IndexOf(s: string, sep: string, from: nat): (r: Option<nat>)
    ensures r.Some? ==> from <= r.value && OccursAt(s, sep, r.value)
    ensures forall j: nat :: from <= j && (r.None? || j < r.value) ==> !OccursAt(s, sep, j)
    decreases |s| - from
  {
    if from + |sep| > |s| then None
    else if s[from..from + |sep|] == sep then Some(from)
    else IndexOf(s, sep, from + 1)
  }

  /** A separator whose first character does not occur before `i` is
      found first at `i`. */
  lemma FirstOccurrenceAt(s: string, sep: string, i: nat)
    requires sep != [] && OccursAt(s, sep, i) && sep[0] !in s[..i]
    ensures forall j: nat :: j < i ==> !OccursAt(s, sep, j)
    ensures IndexOf(s, sep, 0) == Some(i)
  {
  }

  lemma NotAtAnyIndex(s: string, sep: string, i: nat)
    requires sep != [] && sep[0] !in s
    ensures !OccursAt(s, sep, i)
  {
  }

  lemma NoOccurrence(s: string, sep: string)
    requires sep != [] && sep[0] !in s
    ensures IndexOf(s, sep, 0) == None
  {
  }

  /** Parts joined back with the separator between each two of them. */
  function Join(parts: seq<string>, sep: string): string {
    if parts == [] then ""
    else if |parts| == 1 then parts[0]
    else parts[0] + sep + Join(parts[1..], sep)
  }

  /** A prefix that ends before any occurrence of `sep` is complete holds
      none. */
  lemma PrefixBeforeFirstOccurrence(s: string, sep: string, n: nat)
    requires sep != [] && n <= |s|
    requires forall j: nat :: j + |sep| <= n ==> !OccursAt(s, sep, j)
    ensures !Contains(s[..n], sep)
  {
    forall j: nat | OccursAt(s[..n], sep, j)
      ensures false
    {
      assert s[..n][j..j + |sep|] == s[j..j + |sep|];
      assert OccursAt(s, sep, j);
    }
  }

  /** `s.split(sep)` for a non-empty literal separator: the text between
      successive non-overlapping occurrences, searched left to right. */
  function Split(s: string, sep: string): (parts: seq<string>)
    requires sep != []
    ensures |parts| >= 1
    ensures Join(parts, sep) == s
    ensures forall k :: 0 <= k < |parts| ==> !Contains(parts[k], sep)
    ensures |parts| > 1 <==> Contains(s, sep)
    ensures IndexOf(s, sep, 0).Some? ==> parts[0] == s[..IndexOf(s, sep, 0).value]
    ensures parts[0] <= s
    ensures |parts| > 1 ==> OccursAt(s, sep, |parts[0]|)
    ensures SeparatorsLeftmost(parts, sep)
    decreases |s|
  {
    match IndexOf(s, sep, 0)
    case None => [s]
    case Some(i) =>
      var rest := Split(s[i + |sep|..], sep);
      PrefixBeforeFirstOccurrence(s, sep, i);
      PartBeforeFirstOccurrence(s, sep, i);
      LeftmostParts(s[..i], rest, sep);
      assert s == s[..i] + sep + s[i + |sep|..];
      [s[..i]] + rest
  }

  /** The part before the first occurrence, followed by all but the last
      character of the separator, holds no occurrence. */
  lemma PartBeforeFirstOccurrence(s: string, sep: string, i: nat)
    requires sep != [] && OccursAt(s, sep, i)
    requires forall j: nat :: j < i ==> !OccursAt(s, sep, j)
    ensures !Contains(s[..i] + sep[..|sep| - 1], sep)
  {
    PrefixBeforeFirstOccurrence(s, sep, i + |sep| - 1);
    assert s[..i] + sep[..|sep| - 1] == s[..i + |sep| - 1];
  }

  /** Each separator between two parts is the leftmost occurrence after
      the previous one: no occurrence starts inside a part that is
      followed by a separator. */
  predicate SeparatorsLeftmost(parts: seq<string>, sep: string)
    requires sep != []
  {
    forall k :: 0 <= k < |parts| - 1 ==> !Contains(parts[k] + sep[..|sep| - 1], sep)
  }

  lemma LeftmostParts(first: string, rest: seq<string>, sep: string)
    requires sep != [] && !Contains(first + sep[..|sep| - 1], sep)
    requires SeparatorsLeftmost(rest, sep)
    ensures SeparatorsLeftmost([first] + rest, sep)
  {
    var parts := [first] + rest;
    forall k | 0 <= k < |parts| - 1
      ensures !Contains(parts[k] + sep[..|sep| - 1], sep)
    {
      if k > 0 {
        assert parts[k] == rest[k - 1];
      }
    }
  }
}
