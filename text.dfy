/** The string tests the filters rely on: Apache Commons' blank test, case folding and
    substring containment. */
module Text {
  import opened Wrappers

  /** java.lang.Character.isWhitespace: the Unicode space, line and paragraph separators
      other than the no-break spaces U+00A0, U+2007 and U+202F, plus U+0009-U+000D and
      U+001C-U+001F. */
  predicate IsWhitespace(c: char) {
    || ('\t' <= c <= '\r')
    || ('\U{1C}' <= c <= ' ')
    || c == '\U{1680}'
    || ('\U{2000}' <= c <= '\U{2006}')
    || ('\U{2008}' <= c <= '\U{200A}')
    || c == '\U{2028}' || c == '\U{2029}' || c == '\U{205F}' || c == '\U{3000}'
  }

  /** StringUtils.isNotBlank (and Spring's StringUtils.hasText, which agrees with it):
      not null, and at least one character is not whitespace. */
  predicate IsNotBlank(s: Option<string>) {
    s.Some? && exists i :: 0 <= i < |s.value| && !IsWhitespace(s.value[i])
  }

  function LowerChar(c: char): char {
    if 'A' <= c <= 'Z' then (c as int + 32) as char else c
  }

  function UpperChar(c: char): char {
    if 'a' <= c <= 'z' then (c as int - 32) as char else c
  }

  /** String.toLowerCase, for the letters A-Z. */
  function Lower(s: string): string {
    seq(|s|, i requires 0 <= i < |s| => LowerChar(s[i]))
  }

  /** SQL UPPER, for the letters a-z. */
  function Upper(s: string): string {
    seq(|s|, i requires 0 <= i < |s| => UpperChar(s[i]))
  }

  /** `needle` occurs in `hay` starting at position k. */
  predicate OccursAt(hay: string, needle: string, k: int) {
    0 <= k && k + |needle| <= |hay| && hay[k..k + |needle|] == needle
  }

  predicate Contains(hay: string, needle: string) {
    exists k | 0 <= k <= |hay| :: OccursAt(hay, needle, k)
  }

  /** `UPPER(column) LIKE UPPER('%needle%')`, for a needle without SQL wildcards. */
  predicate LikeIgnoreCase(column: string, needle: string) {
    Contains(Upper(column), Upper(needle))
  }

  /** A case-insensitive substring search as a user means it. */
  predicate ContainsIgnoreCase(hay: string, needle: string) {
    Contains(Lower(hay), Lower(needle))
  }

  /** Two characters have the same upper case exactly when they have the same lower case,
      and lower-casing first does not change the upper case. */
  lemma SameFold(a: char, b: char)
    ensures UpperChar(a) == UpperChar(LowerChar(b)) <==> LowerChar(a) == LowerChar(b)
  {
  }

  /** The filter the controller builds (lower-case the input, then compare upper-cased on
      both sides) is exactly a case-insensitive substring search for the input. */
  lemma LikeIgnoreCaseOfLowered(column: string, input: string)
    ensures LikeIgnoreCase(column, Lower(input)) <==> ContainsIgnoreCase(column, input)
  {
    var n := |input|;
    var up, upIn, low, lowIn := Upper(column), Upper(Lower(input)), Lower(column), Lower(input);
    forall k
      ensures OccursAt(up, upIn, k) <==> OccursAt(low, lowIn, k)
    {
      if 0 <= k && k + n <= |column| {
        forall j | 0 <= j < n
          ensures up[k..k + n][j] == upIn[j] <==> low[k..k + n][j] == lowIn[j]
        {
          SameFold(column[k + j], input[j]);
        }
        if up[k..k + n] == upIn {
          assert low[k..k + n] == lowIn;
        }
        if low[k..k + n] == lowIn {
          assert up[k..k + n] == upIn;
        }
      }
    }
  }
}
