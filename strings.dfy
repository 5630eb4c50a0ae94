/** Python's `str.replace(old, new)`, which pandas' `Series.str.replace` applies to each entry. */
module Strings {

  /**
   * Replaces every non-overlapping occurrence of `pat`, scanning left to
   * right. An empty pattern matches before every character and at the end,
   * as in Python (`"ab".replace("", "-") == "-a-b-"`).
   */
  function Replace(s: string, pat: string, rep: string): (r: string)
    ensures pat == [] ==> |r| == |s| + (|s| + 1) * |rep|
    ensures pat != [] && rep == [] ==> |r| <= |s|
    ensures pat != [] && |s| < |pat| ==> r == s
    decreases |s|
  {
    if pat == [] then
      if s == [] then rep else rep + [s[0]] + Replace(s[1..], pat, rep)
    else if |s| < |pat| then s
    else if s[..|pat|] == pat then rep + Replace(s[|pat|..], pat, rep)
    else [s[0]] + Replace(s[1..], pat, rep)
  }

  /**
   * `s` with every `c` taken out and the other characters kept, in order:
   * a reference for deleting one character, independent of pattern matching.
   */
  function Without(s: string, c: char): (r: string)
    ensures multiset(r) == multiset(s)[c := 0]
    ensures c !in s ==> r == s
    decreases |s|
  {
    if s == [] then []
    else
      assert s == [s[0]] + s[1..];
      (if s[0] == c then [] else [s[0]]) + Without(s[1..], c)
  }

  /** Replacing the empty pattern by the empty string changes nothing. */
  lemma {:induction false} ReplaceEmptyByEmpty(s: string)
    ensures Replace(s, "", "") == s
  {
    if s != [] {
      ReplaceEmptyByEmpty(s[1..]);
      assert s == [s[0]] + s[1..];
    }
  }

  /**
   * Deleting one character: the result is `s` without its `c`s, the other
   * characters kept in order and number; so it holds no `c`, every other
   * character of `s` survives, nothing new appears, and it is no longer.
   */
  lemma {:induction false} DeleteChar(s: string, c: char)
    ensures Replace(s, [c], "") == Without(s, c)
    ensures multiset(Replace(s, [c], "")) == multiset(s)[c := 0]
    ensures c !in s ==> Replace(s, [c], "") == s
    ensures c !in Replace(s, [c], "")
    ensures forall d :: d != c ==> (d in Replace(s, [c], "") <==> d in s)
    ensures |Replace(s, [c], "")| <= |s|
  {
    if s != [] {
      DeleteChar(s[1..], c);
      assert s == [s[0]] + s[1..];
    }
  }

  /** A string made only of `c` becomes empty once `c` is deleted. */
  lemma {:induction false} DeleteCharFromRun(s: string, c: char)
    requires forall i :: 0 <= i < |s| ==> s[i] == c
    ensures Replace(s, [c], "") == ""
  {
    if s != [] {
      assert s[..1] == [c];
      DeleteCharFromRun(s[1..], c);
    }
  }
}
