/**
 * The JavaScript string operations the screens rely on: `trim`,
 * `toLowerCase`, `includes`, and the `\s` / `\D` regular-expression classes.
 */
module Text {
  import opened Wrappers

  /** JavaScript's WhiteSpace and LineTerminator code points (`\s` and what `trim` removes). */
  predicate IsWhitespace(c: char) {
    c == '\t' || c == '\n' || c == '\U{000B}' || c == '\U{000C}' || c == '\r' || c == ' '
    || c == '\U{00A0}' || c == '\U{1680}' || ('\U{2000}' <= c <= '\U{200A}')
    || c == '\U{2028}' || c == '\U{2029}' || c == '\U{202F}' || c == '\U{205F}'
    || c == '\U{3000}' || c == '\U{FEFF}'
  }

  /** `value || fallback` on an optional string: a missing or empty value falls back. */
  function OrElse(value: Option<string>, fallback: string): (r: string)
    ensures value.Some? && value.value != "" ==> r == value.value
    ensures value.None? || value.value == "" ==> r == fallback
  {
    if value.Some? && value.value != "" then value.value else fallback
  }

  /** The decimal digits 0-9 (the complement of `\D`). */
  predicate IsDigit(c: char) {
    '0' <= c <= '9'
  }

  /** `s.trimStart()`. */
  function TrimStart(s: string): (r: string)
    ensures |r| <= |s| && r == s[|s| - |r|..]
    ensures forall k :: 0 <= k < |s| - |r| ==> IsWhitespace(s[k])
    ensures |r| > 0 ==> !IsWhitespace(r[0])
  {
    if |s| > 0 && IsWhitespace(s[0]) then TrimStart(s[1..]) else s
  }

  /** `s.trimEnd()`. */
  function TrimEnd(s: string): (r: string)
    ensures |r| <= |s| && r == s[..|r|]
    ensures forall k :: |r| <= k < |s| ==> IsWhitespace(s[k])
    ensures |r| > 0 ==> !IsWhitespace(r[|r| - 1])
  {
    if |s| > 0 && IsWhitespace(s[|s| - 1]) then TrimEnd(s[..|s| - 1]) else s
  }

  /**
   * `r` is `s` with a whitespace prefix of length `a` and a whitespace
   * suffix removed.
   */
  ghost predicate TrimmedAt(s: string, r: string, a: int) {
    && 0 <= a && a + |r| <= |s| && r == s[a..a + |r|]
    && (forall k :: 0 <= k < a ==> IsWhitespace(s[k]))
    && (forall k :: a + |r| <= k < |s| ==> IsWhitespace(s[k]))
  }

  /** `s.trim()`: the longest factor of `s` that neither starts nor ends with whitespace. */
  function Trim(s: string): (r: string)
    ensures exists a :: TrimmedAt(s, r, a)
    ensures |r| > 0 ==> !IsWhitespace(r[0]) && !IsWhitespace(r[|r| - 1])
  {
    var t := TrimStart(s);
    var r := TrimEnd(t);
    var a := |s| - |t|;
    assert r == s[a..a + |r|] by {
      assert r == t[..|r|];
    }
    assert forall k :: a + |r| <= k < |s| ==> IsWhitespace(s[k]) by {
      forall k | a + |r| <= k < |s|
        ensures IsWhitespace(s[k])
      {
        assert s[k] == t[k - a];
      }
    }
    assert TrimmedAt(s, r, a);
    assert |r| > 0 ==> r[0] == t[0];
    r
  }

  /**
   * `toLowerCase` on one code point, for the scripts this application shows:
   * basic Latin, Latin-1 and Cyrillic capitals map to their small letters;
   * every other code point is left unchanged.
   */
  function LowerChar(c: char): (r: char)
    ensures IsWhitespace(c) <==> IsWhitespace(r)
  {
    if 'A' <= c <= 'Z' then (c as int + 32) as char
    else if ('\U{00C0}' <= c <= '\U{00DE}') && c != '\U{00D7}' then (c as int + 32) as char
    else if '\U{0410}' <= c <= '\U{042F}' then (c as int + 32) as char
    else if '\U{0400}' <= c <= '\U{040F}' then (c as int + 80) as char
    else c
  }

  /** `s.toLowerCase()`, code point by code point. */
  function Lower(s: string): (r: string)
    ensures |r| == |s|
    ensures forall k :: 0 <= k < |s| ==> r[k] == LowerChar(s[k])
  {
    if |s| == 0 then "" else [LowerChar(s[0])] + Lower(s[1..])
  }

  lemma LowerCharIdempotent(c: char)
    ensures LowerChar(LowerChar(c)) == LowerChar(c)
  {
  }

  /** Lower-casing twice is lower-casing once. */
  lemma LowerIdempotent(s: string)
    ensures Lower(Lower(s)) == Lower(s)
  {
    forall k | 0 <= k < |s|
      ensures Lower(Lower(s))[k] == Lower(s)[k]
    {
      LowerCharIdempotent(s[k]);
    }
  }

  /** `needle` occurs in `hay` starting at position `i`. */
  ghost predicate OccursAt(hay: string, needle: string, i: int) {
    0 <= i && i + |needle| <= |hay| && hay[i..i + |needle|] == needle
  }

  /** `hay.includes(needle)`. */
  function Includes(hay: string, needle: string): (r: bool)
    ensures r <==> exists i :: OccursAt(hay, needle, i)
    decreases |hay|
  {
    if |needle| > |hay| then false
    else if hay[..|needle|] == needle then (assert OccursAt(hay, needle, 0); true)
    else
      var r := Includes(hay[1..], needle);
      assert r ==> exists i :: OccursAt(hay, needle, i) by {
        if r {
          var i :| OccursAt(hay[1..], needle, i);
          assert hay[1..][i..i + |needle|] == hay[i + 1..i + 1 + |needle|];
          assert OccursAt(hay, needle, i + 1);
        }
      }
      assert (exists i :: OccursAt(hay, needle, i)) ==> r by {
        if exists i :: OccursAt(hay, needle, i) {
          var i :| OccursAt(hay, needle, i);
          assert i != 0;
          assert hay[1..][i - 1..i - 1 + |needle|] == hay[i..i + |needle|];
          assert OccursAt(hay[1..], needle, i - 1);
        }
      }
      r
  }

  /** The empty string occurs in every string, so an empty search matches everything. */
  lemma IncludesEmpty(hay: string)
    ensures Includes(hay, "")
  {
    assert OccursAt(hay, "", 0);
  }
}
