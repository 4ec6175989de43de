/**
 * The C library string routines that the tool relies on, over the
 * NUL-terminated view of a string: reading past the end of a Dafny string
 * yields the terminating NUL, as it does in C.
 *
 *  - `NCompareEqual(a, b, n, false)` is `strncmp(a, b, n) == 0`
 *  - `NCompareEqual(a, b, n, true)`  is `strncasecmp(a, b, n) == 0`
 *  - `CaseCompareEqual(a, b)`        is `strcasecmp(a, b) == 0`
 *
 * Case folding is that of the C locale: only 'A'..'Z' change.
 * The lemmas at the end say what these comparisons mean on proper C strings
 * (no NUL inside): a prefix test, a case-insensitive prefix test and a
 * case-insensitive equality.
 */
module CLib {

  /** A C string holds no NUL before its terminator. */
  predicate IsCString(s: string) {
    forall i :: 0 <= i < |s| ==> s[i] != '\0'
  }

  /** `s[i]` in C: the terminating NUL once past the last character. */
  function At(s: string, i: nat): char {
    if i < |s| then s[i] else '\0'
  }

  /** `s + 1` in C, used only while `s` has not reached its NUL. */
  function Rest(s: string): string {
    if s == [] then [] else s[1..]
  }

  /** `tolower` in the C locale. */
  function Lower(c: char): (d: char)
    ensures d == '\0' <==> c == '\0'
    ensures 'A' <= c <= 'Z' ==> d as int == c as int + 32
    ensures !('A' <= c <= 'Z') ==> d == c
  {
    if 'A' <= c <= 'Z' then (c as int + 32) as char else c
  }

  function LowerStr(s: string): string {
    seq(|s|, i requires 0 <= i < |s| => Lower(s[i]))
  }

  /** A character as the comparison sees it. */
  function FoldChar(c: char, caseless: bool): char {
    if caseless then Lower(c) else c
  }

  /** A string as the comparison sees it. */
  function FoldStr(s: string, caseless: bool): string {
    if caseless then LowerStr(s) else s
  }

  predicate StartsWith(s: string, p: string) {
    |p| <= |s| && s[..|p|] == p
  }

  function Min(x: nat, y: nat): nat {
    if x <= y then x else y
  }

  /**
   * The loop of `strncmp` (or `strncasecmp` when `caseless`): compare at most
   * `n` characters, stop early at a differing character, or at a NUL that
   * both strings share.
   */
  predicate NCompareEqual(a: string, b: string, n: nat, caseless: bool)
    decreases n
  {
    n == 0 ||
    (FoldChar(At(a, 0), caseless) == FoldChar(At(b, 0), caseless) &&
     (At(a, 0) == '\0' || NCompareEqual(Rest(a), Rest(b), n - 1, caseless)))
  }

  /** `strcasecmp`: the comparison always ends at `a`'s terminator at the latest. */
  predicate CaseCompareEqual(a: string, b: string) {
    NCompareEqual(a, b, |a| + 1, true)
  }

  lemma FoldStrCons(s: string, caseless: bool)
    requires |s| > 0
    ensures FoldStr(s, caseless) == [FoldChar(s[0], caseless)] + FoldStr(s[1..], caseless)
  {
    if caseless {
      assert LowerStr(s) == [Lower(s[0])] + LowerStr(s[1..]);
    }
  }

  /**
   * On C strings, the bounded comparison holds exactly when the first `n`
   * characters of each side (or all of it, when shorter) agree after folding.
   */
  lemma {:induction false} NCompareEqualMeaning(a: string, b: string, n: nat, caseless: bool)
    requires IsCString(a) && IsCString(b)
    ensures NCompareEqual(a, b, n, caseless) <==>
            FoldStr(a[..Min(n, |a|)], caseless) == FoldStr(b[..Min(n, |b|)], caseless)
    decreases n
  {
    var pa, pb := a[..Min(n, |a|)], b[..Min(n, |b|)];
    if n == 0 {
      assert pa == [] && pb == [];
    } else if |a| == 0 && |b| == 0 {
      assert pa == [] && pb == [];
    } else if |a| == 0 {
      assert |FoldStr(pb, caseless)| == |pb| > 0;
      assert FoldChar(At(b, 0), caseless) != '\0';
    } else if |b| == 0 {
      assert |FoldStr(pa, caseless)| == |pa| > 0;
      assert FoldChar(At(a, 0), caseless) != '\0';
    } else {
      assert IsCString(a[1..]) by {
        forall i | 0 <= i < |a[1..]| ensures a[1..][i] != '\0' { assert a[1..][i] == a[i + 1]; }
      }
      assert IsCString(b[1..]) by {
        forall i | 0 <= i < |b[1..]| ensures b[1..][i] != '\0' { assert b[1..][i] == b[i + 1]; }
      }
      NCompareEqualMeaning(a[1..], b[1..], n - 1, caseless);
      assert pa[1..] == a[1..][..Min(n - 1, |a| - 1)];
      assert pb[1..] == b[1..][..Min(n - 1, |b| - 1)];
      FoldStrCons(pa, caseless);
      FoldStrCons(pb, caseless);
      var fa, fb := FoldStr(pa, caseless), FoldStr(pb, caseless);
      if fa == fb {
        assert fa[0] == fb[0] && fa[1..] == fb[1..];
      }
    }
  }

  /** `strncmp(s, p, strlen(p)) == 0` is the test "s begins with p". */
  lemma PrefixCompare(s: string, p: string)
    requires IsCString(s) && IsCString(p)
    ensures NCompareEqual(s, p, |p|, false) <==> StartsWith(s, p)
  {
    NCompareEqualMeaning(s, p, |p|, false);
  }

  /** `strncasecmp(s, p, strlen(p)) == 0` is "s begins with p, ignoring case". */
  lemma CaselessPrefixCompare(s: string, p: string)
    requires IsCString(s) && IsCString(p)
    ensures NCompareEqual(s, p, |p|, true) <==> |p| <= |s| && LowerStr(s[..|p|]) == LowerStr(p)
  {
    NCompareEqualMeaning(s, p, |p|, true);
  }

  /** `strcasecmp(a, b) == 0` is equality ignoring case. */
  lemma CaseCompareMeaning(a: string, b: string)
    requires IsCString(a) && IsCString(b)
    ensures CaseCompareEqual(a, b) <==> LowerStr(a) == LowerStr(b)
  {
    NCompareEqualMeaning(a, b, |a| + 1, true);
    assert a[..Min(|a| + 1, |a|)] == a;
    if |b| <= |a| + 1 {
      assert b[..Min(|a| + 1, |b|)] == b;
    }
  }

  /** The tail of a C string is a C string. */
  lemma CStringTail(s: string, k: nat)
    requires IsCString(s) && k <= |s|
    ensures IsCString(s[k..])
  {
    forall i | 0 <= i < |s[k..]| ensures s[k..][i] != '\0' { assert s[k..][i] == s[k + i]; }
  }
}
