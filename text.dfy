/**
 * The few `String` operations the services rely on: `isBlank`, case
 * conversion and `contains`. Case conversion is modelled on ASCII letters.
 */
module Text {

  /** `Character.isWhitespace`: the Unicode space separators other than the
      no-break ones, and the control characters U+0009..U+000D, U+001C..U+001F. */
  predicate IsWhitespace(c: char) {
    c == ' ' || '\t' <= c <= '\r' || '\U{1C}' <= c <= '\U{1F}' || c == '\U{1680}'
    || '\U{2000}' <= c <= '\U{2006}' || '\U{2008}' <= c <= '\U{200A}'
    || c == '\U{2028}' || c == '\U{2029}' || c == '\U{205F}' || c == '\U{3000}'
  }

  /** `String.isBlank`: empty, or white space only. */
  predicate IsBlank(s: string) {
    forall i :: 0 <= i < |s| ==> IsWhitespace(s[i])
  }

  function UpperChar(c: char): (r: char)
    ensures 'a' <= c <= 'z' ==> 'A' <= r <= 'Z'
    ensures !('a' <= c <= 'z') ==> r == c
  {
    if 'a' <= c <= 'z' then (c as int - 32) as char else c
  }

  function LowerChar(c: char): (r: char)
    ensures 'A' <= c <= 'Z' ==> 'a' <= r <= 'z'
    ensures !('A' <= c <= 'Z') ==> r == c
  {
    if 'A' <= c <= 'Z' then (c as int + 32) as char else c
  }

  /** `String.toUpperCase` (SQL `upper`) on ASCII letters. */
  function ToUpper(s: string): (r: string)
    ensures |r| == |s|
    ensures forall i :: 0 <= i < |s| ==> r[i] == UpperChar(s[i])
  {
    seq(|s|, i requires 0 <= i < |s| => UpperChar(s[i]))
  }

  /** `String.toLowerCase` on ASCII letters. */
  function ToLower(s: string): (r: string)
    ensures |r| == |s|
    ensures forall i :: 0 <= i < |s| ==> r[i] == LowerChar(s[i])
  {
    seq(|s|, i requires 0 <= i < |s| => LowerChar(s[i]))
  }

  /** Upper-casing twice is upper-casing once. */
  lemma UpperIdempotent(s: string)
    ensures ToUpper(ToUpper(s)) == ToUpper(s)
  {
    forall i | 0 <= i < |s| ensures ToUpper(ToUpper(s))[i] == ToUpper(s)[i] {
      assert ToUpper(s)[i] == UpperChar(s[i]);
    }
  }

  /** Upper-casing forgets a preceding lower-casing. */
  lemma UpperOfLower(s: string)
    ensures ToUpper(ToLower(s)) == ToUpper(s)
  {
    forall i | 0 <= i < |s| ensures ToUpper(ToLower(s))[i] == ToUpper(s)[i] {
      assert ToLower(s)[i] == LowerChar(s[i]);
    }
  }

  predicate IsPrefix(p: string, s: string) {
    |p| <= |s| && s[..|p|] == p
  }

  /** `String.contains` (SQL `like '%' || sub || '%'` without wildcards in `sub`). */
  predicate Contains(s: string, sub: string)
    decreases |s|
  {
    IsPrefix(sub, s) || (|s| > 0 && Contains(s[1..], sub))
  }

  /** `contains` finds `sub` exactly when it occurs at some offset of `s`. */
  lemma {:induction false} ContainsAt(s: string, sub: string)
    ensures Contains(s, sub) <==> exists k :: 0 <= k <= |s| - |sub| && IsPrefix(sub, s[k..])
    decreases |s|
  {
    if IsPrefix(sub, s) {
      assert s[0..] == s;
    } else if |s| > 0 {
      ContainsAt(s[1..], sub);
      if Contains(s[1..], sub) {
        var k :| 0 <= k <= |s[1..]| - |sub| && IsPrefix(sub, s[1..][k..]);
        assert s[1..][k..] == s[k + 1..];
      }
      if exists k :: 0 <= k <= |s| - |sub| && IsPrefix(sub, s[k..]) {
        var k :| 0 <= k <= |s| - |sub| && IsPrefix(sub, s[k..]);
        assert k != 0 by { assert s[0..] == s; }
        assert s[1..][k - 1..] == s[k..];
      }
    }
  }

  /** Lower-casing forgets a preceding upper-casing. */
  lemma LowerOfUpper(s: string)
    ensures ToLower(ToUpper(s)) == ToLower(s)
  {
    forall i | 0 <= i < |s| ensures ToLower(ToUpper(s))[i] == ToLower(s)[i] {
      assert ToUpper(s)[i] == UpperChar(s[i]);
    }
  }

  /** Mapping both strings character by character through the same function keeps an occurrence. */
  lemma {:induction false} ContainsPointwise(a: string, b: string, a': string, b': string, f: char -> char)
    requires |a'| == |a| && |b'| == |b|
    requires forall i :: 0 <= i < |a| ==> a'[i] == f(a[i])
    requires forall i :: 0 <= i < |b| ==> b'[i] == f(b[i])
    requires Contains(a, b)
    ensures Contains(a', b')
    decreases |a|
  {
    if IsPrefix(b, a) {
      assert a'[..|b'|] == b' by {
        forall i | 0 <= i < |b| ensures a'[i] == b'[i] {
          assert a[i] == b[i];
        }
      }
    } else {
      ContainsPointwise(a[1..], b, a'[1..], b', f);
    }
  }

  /** Comparing lower-cased or upper-cased strings finds the same occurrences. */
  lemma CaseFoldsAgree(a: string, b: string)
    ensures Contains(ToLower(a), ToLower(b)) <==> Contains(ToUpper(a), ToUpper(b))
  {
    if Contains(ToLower(a), ToLower(b)) {
      ContainsPointwise(ToLower(a), ToLower(b), ToUpper(ToLower(a)), ToUpper(ToLower(b)), UpperChar);
      UpperOfLower(a);
      UpperOfLower(b);
    }
    if Contains(ToUpper(a), ToUpper(b)) {
      ContainsPointwise(ToUpper(a), ToUpper(b), ToLower(ToUpper(a)), ToLower(ToUpper(b)), LowerChar);
      LowerOfUpper(a);
      LowerOfUpper(b);
    }
  }
}
