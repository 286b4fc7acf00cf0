/**
 * The few `java.lang.String` operations that the generator's own logic
 * relies on, stated over Dafny strings (sequences of `char`).
 */
module JavaStrings {

  /** `s.startsWith(prefix)`, as called by `addOperationToGroup`. */
  predicate StartsWith(s: string, prefix: string)
  {
    |prefix| <= |s| && s[..|prefix|] == prefix
  }

  /**
   * `s` ends with `suffix`. The source has no `endsWith` call: this states the
   * anchored literal suffix of the overwrite guard's patterns and the suffix
   * that `toModelName` appends.
   */
  predicate EndsWith(s: string, suffix: string)
  {
    |suffix| <= |s| && s[|s| - |suffix|..] == suffix
  }

  /** `s.indexOf(c)`: the first index at which `c` occurs, or -1 when it does not occur. */
  function IndexOf(s: string, c: char): (r: int)
    ensures -1 <= r < |s|
    ensures r == -1 <==> c !in s
    ensures r >= 0 ==> s[r] == c && c !in s[..r]
  {
    if |s| == 0 then -1
    else if s[0] == c then 0
    else
      var k := IndexOf(s[1..], c);
      assert s == [s[0]] + s[1..];
      if k == -1 then -1
      else
        assert s[..k + 1] == [s[0]] + s[1..][..k];
        k + 1
  }

  /** The first occurrence is unique: an index holding `c` with no `c` before it is `s.indexOf(c)`. */
  lemma IndexOfIsFirst(s: string, c: char, k: nat)
    requires k < |s| && s[k] == c && c !in s[..k]
    ensures IndexOf(s, c) == k
  {
    assert c in s by { assert s[k] == c; }
  }
}
