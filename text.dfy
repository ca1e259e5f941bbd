/** The few Ruby string operations the installer relies on, over `string` = `seq<char>`. */
module Text {
  import opened Outcomes

  predicate StartsWith(s: string, prefix: string) {
    |prefix| <= |s| && s[..|prefix|] == prefix
  }

  predicate EndsWith(s: string, suffix: string) {
    |suffix| <= |s| && s[|s| - |suffix|..] == suffix
  }

  /** ASCII lower-casing, which is all the case-insensitive prefixes of the installer need. */
  function Lower(c: char): char {
    if 'A' <= c <= 'Z' then (c as int + 32) as char else c
  }

  predicate StartsWithIgnoringCase(s: string, prefix: string) {
    |prefix| <= |s| && forall i :: 0 <= i < |prefix| ==> Lower(s[i]) == Lower(prefix[i])
  }

  /** `\s` of a Ruby regular expression: space, tab, newline, vertical tab, form feed, carriage return. */
  predicate IsSpace(c: char) {
    c == ' ' || c == '\t' || c == '\n' || c == '\r' || c as int == 11 || c as int == 12
  }

  /** Ruby's String#chomp without an argument: drops one trailing "\r\n", "\n" or "\r". */
  function Chomp(s: string): (r: string)
    ensures |r| <= |s| && s[..|r|] == r
    ensures |s| - |r| <= 2
    ensures r == s <==> s == [] || (s[|s| - 1] != '\n' && s[|s| - 1] != '\r')
    ensures |r| == |s| - 2 ==> s[|s| - 2] == '\r' && s[|s| - 1] == '\n'
  {
    if |s| >= 2 && s[|s| - 2] == '\r' && s[|s| - 1] == '\n' then s[..|s| - 2]
    else if |s| >= 1 && (s[|s| - 1] == '\n' || s[|s| - 1] == '\r') then s[..|s| - 1]
    else s
  }

  predicate OccursAt(s: string, pattern: string, k: nat) {
    k + |pattern| <= |s| && s[k..k + |pattern|] == pattern
  }

  /** Ruby's String#index: where `pattern` first occurs in `s`. */
  function IndexOf(s: string, pattern: string): (r: Option<nat>)
    ensures r.Some? ==> OccursAt(s, pattern, r.value)
    ensures r.Some? ==> forall k: nat :: k < r.value ==> !OccursAt(s, pattern, k)
    ensures r.None? ==> forall k: nat :: !OccursAt(s, pattern, k)
    decreases |s|
  {
    if |s| < |pattern| then None
    else if s[..|pattern|] == pattern then Some(0)
    else
      var rest := IndexOf(s[1..], pattern);
      assert !OccursAt(s, pattern, 0);
      forall k: nat | 0 < k && OccursAt(s, pattern, k) ensures OccursAt(s[1..], pattern, k - 1) {
        assert s[1..][k - 1..k - 1 + |pattern|] == s[k..k + |pattern|];
      }
      match rest
      case None => None
      case Some(i) =>
        assert s[1..][i..i + |pattern|] == s[i + 1..i + 1 + |pattern|];
        Some(i + 1)
  }

  /** Ruby's String#sub with a literal pattern: the first occurrence of `pattern` replaced. */
  function Sub(s: string, pattern: string, replacement: string): string {
    match IndexOf(s, pattern)
    case None => s
    case Some(i) => s[..i] + replacement + s[i + |pattern|..]
  }

  /** The text before the first newline (what `.*` captures in a Ruby regular expression). */
  function UpToNewline(s: string): (r: string)
    ensures |r| <= |s| && s[..|r|] == r
    ensures '\n' !in r
    ensures '\n' !in s ==> r == s
    ensures '\n' in s ==> |r| < |s| && s[|r|] == '\n'
  {
    match IndexOf(s, "\n")
    case None =>
      forall k | 0 <= k < |s| ensures s[k] != '\n' {
        assert s[k..k + 1] == [s[k]];
        assert !OccursAt(s, "\n", k);
      }
      s
    case Some(i) =>
      forall k | 0 <= k < i ensures s[k] != '\n' {
        assert s[k..k + 1] == [s[k]];
        assert !OccursAt(s, "\n", k);
      }
      assert s[i..i + 1] == "\n";
      assert s[i] in s;
      s[..i]
  }

  /** Ruby's Array#join: the parts with `separator` between them. */
  function JoinWith(parts: seq<string>, separator: string): string {
    if |parts| == 0 then ""
    else if |parts| == 1 then parts[0]
    else parts[0] + separator + JoinWith(parts[1..], separator)
  }
}
