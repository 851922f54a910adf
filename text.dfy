/**
 * The JavaScript string operations the pages rely on: `toLowerCase`,
 * `includes`, `startsWith`, `endsWith` and `trim`.
 *
 * Lower-casing is ASCII only (A-Z to a-z); `trim` strips the characters that
 * ECMAScript classes as WhiteSpace or LineTerminator.
 */
module Text {

  /** `c.toLowerCase()` on the ASCII range. */
  function LowerChar(c: char): char
  {
    if 'A' <= c <= 'Z' then (c as int + 32) as char else c
  }

  /** `s.toLowerCase()`, character by character. */
  function Lower(s: string): (r: string)
    ensures |r| == |s|
    ensures forall i :: 0 <= i < |s| ==> r[i] == LowerChar(s[i])
  {
    seq(|s|, i requires 0 <= i < |s| => LowerChar(s[i]))
  }

  /** Lower-casing a second time changes nothing. */
  lemma LowerIdempotent(s: string)
    ensures Lower(Lower(s)) == Lower(s)
  {
    assert forall i :: 0 <= i < |s| ==> LowerChar(LowerChar(s[i])) == LowerChar(s[i]);
  }

  /** `s.startsWith(prefix)`: `s` is `prefix` followed by the rest of `s`. */
  function StartsWith(s: string, prefix: string): (b: bool)
    ensures b <==> |prefix| <= |s| && prefix + s[|prefix|..] == s
  {
    var yes := |prefix| <= |s| && s[..|prefix|] == prefix;
    assert |prefix| <= |s| ==> s[..|prefix|] + s[|prefix|..] == s;
    yes
  }

  /** `s.endsWith(suffix)`: `s` is the front of `s` followed by `suffix`. */
  function EndsWith(s: string, suffix: string): (b: bool)
    ensures b <==> |suffix| <= |s| && s[..|s| - |suffix|] + suffix == s
  {
    var yes := |suffix| <= |s| && s[|s| - |suffix|..] == suffix;
    assert |suffix| <= |s| ==> s[..|s| - |suffix|] + s[|s| - |suffix|..] == s;
    yes
  }

  /** `s.replace(pattern, '')`: the leftmost occurrence of `pattern` removed.
      A string without the pattern is returned unchanged, and a string that
      includes it loses exactly `|pattern|` characters. */
  function RemoveFirst(s: string, pattern: string): (r: string)
    ensures StartsWith(s, pattern) ==> r == s[|pattern|..]
    ensures !Includes(s, pattern) ==> r == s
    ensures Includes(s, pattern) ==> |r| == |s| - |pattern|
    decreases |s|
  {
    if StartsWith(s, pattern) then s[|pattern|..]
    else if s == [] then s
    else
      var rest := RemoveFirst(s[1..], pattern);
      assert !Includes(s[1..], pattern) ==> [s[0]] + s[1..] == s;
      [s[0]] + rest
  }

  /** `haystack.includes(needle)`, as a scan over the start positions. Every
      string includes the empty string, and a needle that is found is no
      longer than the haystack. */
  function Includes(haystack: string, needle: string): (b: bool)
    ensures needle == [] ==> b
    ensures b ==> |needle| <= |haystack|
    decreases |haystack|
  {
    StartsWith(haystack, needle) || (haystack != [] && Includes(haystack[1..], needle))
  }

  /** `needle` occurs in `haystack` starting at offset `i`. */
  predicate OccursAt(haystack: string, needle: string, i: int)
  {
    0 <= i && i + |needle| <= |haystack| && haystack[i..i + |needle|] == needle
  }

  /** `includes` holds exactly when the needle occurs at some offset. */
  lemma {:induction false} IncludesAt(haystack: string, needle: string)
    ensures Includes(haystack, needle) <==> exists i :: OccursAt(haystack, needle, i)
    decreases |haystack|
  {
    var n := |needle|;
    if Includes(haystack, needle) {
      if StartsWith(haystack, needle) {
        assert OccursAt(haystack, needle, 0);
      } else {
        IncludesAt(haystack[1..], needle);
        var i :| OccursAt(haystack[1..], needle, i);
        assert haystack[i + 1..i + 1 + n] == haystack[1..][i..i + n];
        assert OccursAt(haystack, needle, i + 1);
      }
    }
    if exists i :: OccursAt(haystack, needle, i) {
      var i :| OccursAt(haystack, needle, i);
      if i == 0 {
        assert StartsWith(haystack, needle);
      } else {
        assert haystack[1..][i - 1..i - 1 + n] == haystack[i..i + n];
        assert OccursAt(haystack[1..], needle, i - 1);
        IncludesAt(haystack[1..], needle);
      }
    }
  }

  /** Every string includes the empty string (so an empty search term matches everything). */
  lemma IncludesEmpty(haystack: string)
    ensures Includes(haystack, "")
  {
  }

  /** ECMAScript WhiteSpace and LineTerminator code points, which `trim` removes. */
  predicate IsWhitespace(c: char)
  {
    || c == '\t' || c == '\n' || c == '\U{B}' || c == '\U{C}' || c == '\r' || c == ' '
    || c == '\U{A0}' || c == '\U{1680}' || ('\U{2000}' <= c <= '\U{200A}')
    || c == '\U{2028}' || c == '\U{2029}' || c == '\U{202F}' || c == '\U{205F}'
    || c == '\U{3000}' || c == '\U{FEFF}'
  }

  predicate AllWhitespace(s: string)
  {
    forall i :: 0 <= i < |s| ==> IsWhitespace(s[i])
  }

  /** Length of the whitespace run at the start of `s`. */
  function LeadingWhitespace(s: string): (k: nat)
    ensures k <= |s|
    ensures AllWhitespace(s[..k])
    ensures k < |s| ==> !IsWhitespace(s[k])
  {
    if s == [] || !IsWhitespace(s[0]) then 0
    else
      var k := LeadingWhitespace(s[1..]);
      assert s[..1 + k] == [s[0]] + s[1..][..k];
      1 + k
  }

  /** Length of the whitespace run at the end of `s`. */
  function TrailingWhitespace(s: string): (k: nat)
    ensures k <= |s|
    ensures AllWhitespace(s[|s| - k..])
    ensures k < |s| ==> !IsWhitespace(s[|s| - 1 - k])
  {
    if s == [] || !IsWhitespace(s[|s| - 1]) then 0
    else
      var init := s[..|s| - 1];
      var k := TrailingWhitespace(init);
      assert s[|s| - (1 + k)..] == init[|init| - k..] + [s[|s| - 1]];
      1 + k
  }

  /** `r` is `s[a..b]` and everything cut off on either side is whitespace. */
  predicate StripsTo(s: string, r: string, a: int, b: int)
  {
    0 <= a <= b <= |s| && r == s[a..b] && AllWhitespace(s[..a]) && AllWhitespace(s[b..])
  }

  /** `s.trim()`: `s` without its leading and trailing whitespace. */
  function Trim(s: string): (r: string)
    ensures exists a, b :: StripsTo(s, r, a, b)
    ensures r == [] <==> AllWhitespace(s)
    ensures r != [] ==> !IsWhitespace(r[0]) && !IsWhitespace(r[|r| - 1])
    ensures s == [] || (!IsWhitespace(s[0]) && !IsWhitespace(s[|s| - 1])) ==> r == s
  {
    var a := LeadingWhitespace(s);
    var t := s[a..];
    var b := TrailingWhitespace(t);
    assert AllWhitespace(s) ==> a == |s|;
    assert a == |s| ==> AllWhitespace(s) by {
      if a == |s| {
        assert s[..a] == s;
      }
    }
    assert s[a..][..|t| - b] == s[a..a + |t| - b];
    assert s[a + |t| - b..] == t[|t| - b..];
    assert StripsTo(s, t[..|t| - b], a, a + |t| - b);
    t[..|t| - b]
  }

  /** Trimming twice is trimming once. */
  lemma TrimIdempotent(s: string)
    ensures Trim(Trim(s)) == Trim(s)
  {
  }
}
