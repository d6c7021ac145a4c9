/** String operations used by the title index: Python's `str.lower`
    (restricted to ASCII), the `in` operator on strings, and the
    code-point order Python uses to compare strings. */
module Text {

  /** ASCII approximation of lower-casing one character. */
  function LowerChar(c: char): (d: char)
    ensures 'A' <= c <= 'Z' ==> d as int == c as int + 32
    ensures !('A' <= c <= 'Z') ==> d == c
    ensures !('A' <= d <= 'Z')
  {
    if 'A' <= c <= 'Z' then (c as int + 32) as char else c
  }

  /** `s.lower()`, character by character. */
  function Lower(s: string): (r: string)
    ensures |r| == |s|
    ensures forall i :: 0 <= i < |s| ==> r[i] == LowerChar(s[i])
  {
    if |s| == 0 then [] else [LowerChar(s[0])] + Lower(s[1..])
  }

  predicate StartsWith(s: string, prefix: string) {
    |prefix| <= |s| && s[..|prefix|] == prefix
  }

  /** Python's `needle in hay` for two strings: the empty string is in
      every string, and nothing longer than `hay` is in it. */
  function Contains(hay: string, needle: string): (found: bool)
    ensures |needle| == 0 ==> found
    ensures found ==> |needle| <= |hay|
    decreases |hay|
  {
    StartsWith(hay, needle) || (0 < |hay| && Contains(hay[1..], needle))
  }

  /** `Contains` means: `needle` occurs at some offset of `hay`. */
  lemma {:induction false} ContainsAtOffset(hay: string, needle: string)
    ensures Contains(hay, needle) <==> exists i :: 0 <= i <= |hay| && StartsWith(hay[i..], needle)
  {
    if Contains(hay, needle) {
      if StartsWith(hay, needle) {
        assert hay[0..] == hay;
      } else {
        ContainsAtOffset(hay[1..], needle);
        var i :| 0 <= i <= |hay[1..]| && StartsWith(hay[1..][i..], needle);
        assert hay[1..][i..] == hay[i + 1..];
      }
    }
    if exists i :: 0 <= i <= |hay| && StartsWith(hay[i..], needle) {
      var i :| 0 <= i <= |hay| && StartsWith(hay[i..], needle);
      if i == 0 {
        assert hay[0..] == hay;
      } else {
        assert hay[1..][i - 1..] == hay[i..];
        ContainsAtOffset(hay[1..], needle);
      }
    }
  }

  /** Python's `a < b` on strings: lexicographic by code point, a proper
      prefix before its extensions. */
  function LexLess(a: string, b: string): (less: bool)
    ensures |a| < |b| && a == b[..|a|] ==> less
    ensures |b| <= |a| && b == a[..|b|] ==> !less
    decreases |a|
  {
    if |a| == 0 then 0 < |b|
    else if |b| == 0 then false
    else if a[0] != b[0] then
      assert (|a| <= |b| ==> a != b[..|a|]) && (|b| <= |a| ==> b != a[..|b|]) by {
        if |a| <= |b| { assert b[..|a|][0] == b[0]; }
        if |b| <= |a| { assert a[..|b|][0] == a[0]; }
      }
      a[0] < b[0]
    else
      assert |a| <= |b| ==> b[..|a|][1..] == b[1..][..|a| - 1];
      assert |b| <= |a| ==> a[..|b|][1..] == a[1..][..|b| - 1];
      LexLess(a[1..], b[1..])
  }

  lemma {:induction false} LexLessIrreflexive(a: string)
    ensures !LexLess(a, a)
  {
    if |a| > 0 {
      LexLessIrreflexive(a[1..]);
    }
  }

  lemma {:induction false} LexLessTransitive(a: string, b: string, c: string)
    requires LexLess(a, b) && LexLess(b, c)
    ensures LexLess(a, c)
  {
    if |a| > 0 && a[0] == b[0] && b[0] == c[0] {
      LexLessTransitive(a[1..], b[1..], c[1..]);
    }
  }

  lemma {:induction false} LexLessTotal(a: string, b: string)
    requires a != b
    ensures LexLess(a, b) || LexLess(b, a)
  {
    if |a| > 0 && |b| > 0 && a[0] == b[0] {
      assert a == [a[0]] + a[1..] && b == [b[0]] + b[1..];
      LexLessTotal(a[1..], b[1..]);
    }
  }
}
