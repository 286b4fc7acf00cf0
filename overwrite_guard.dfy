/**
 * The overwrite guard of the MSF4J server generator: on regeneration, the
 * hand-edited service implementation and service factory classes are never
 * overwritten; every other file is left to the framework's default policy.
 */
module OverwriteGuard {
  import opened JavaStrings

  // The directory marker and file suffix of the pattern for service implementation classes
  const ImplDir: string := "/impl/"
  const ImplSuffix: string := "ServiceImpl.java"

  // The directory marker and file suffix of the pattern for service factory classes
  const FactoryDir: string := "/factories/"
  const FactorySuffix: string := "ServiceFactory.java"

  /** The characters that `.` of java.util.regex (no flags) does not match. */
  predicate IsLineTerminator(c: char)
  {
    c == '\n' || c == '\r' || c == '\U{85}' || c == '\U{2028}' || c == '\U{2029}'
  }

  /** `s` is matched by the regular expression `.` repeated. */
  predicate AnyChars(s: string)
  {
    forall j :: 0 <= j < |s| ==> !IsLineTerminator(s[j])
  }

  /**
   * `f.matches` of the pattern "any text, dir, any text, suffix, end", with
   * every character of `dir` and `suffix` taken literally (the escaped dot of
   * the source's patterns): the whole of `f` is some text, then
   * `dir` at index i, then some text, then `suffix` at the very end.
   */
  predicate FullMatch(f: string, dir: string, suffix: string)
  {
    exists i | 0 <= i <= |f| - |dir| - |suffix| :: MatchAt(f, dir, suffix, i)
  }

  /** The match of FullMatch with `dir` at index `i`. */
  predicate MatchAt(f: string, dir: string, suffix: string, i: nat)
    requires i <= |f| - |dir| - |suffix|
  {
    && f[i..i + |dir|] == dir
    && EndsWith(f, suffix)
    && AnyChars(f[..i])
    && AnyChars(f[i + |dir|..|f| - |suffix|])
  }

  /** The file is a service implementation class under an `impl` directory. */
  predicate ImplMatch(filename: string)
  {
    FullMatch(filename, ImplDir, ImplSuffix)
  }

  /** The file is a service factory class under a `factories` directory. */
  predicate FactoryMatch(filename: string)
  {
    FullMatch(filename, FactoryDir, FactorySuffix)
  }

  /**
   * Whether the generator may overwrite `filename`; `superShouldOverwrite`
   * stands for the framework's default policy.
   */
  function ShouldOverwrite(filename: string, superShouldOverwrite: string -> bool): (r: bool)
    // a protected file is never overwritten, whatever the framework says
    ensures ImplMatch(filename) || FactoryMatch(filename) ==> !r
    // the guard only ever takes permission away
    ensures r ==> superShouldOverwrite(filename)
    // every other file is left to the framework
    ensures !ImplMatch(filename) && !FactoryMatch(filename) ==> r == superShouldOverwrite(filename)
  {
    !ImplMatch(filename) && !FactoryMatch(filename) && superShouldOverwrite(filename)
  }

  /**
   * The pattern accepts every filename made of line-terminator-free text,
   * the directory marker, line-terminator-free text and the suffix.
   */
  lemma {:induction false} PatternAccepts(prefix: string, dir: string, middle: string, suffix: string)
    requires AnyChars(prefix) && AnyChars(middle)
    ensures FullMatch(prefix + dir + middle + suffix, dir, suffix)
  {
    var f := prefix + dir + middle + suffix;
    var i := |prefix|;
    assert f[i..i + |dir|] == dir;
    assert f[|f| - |suffix|..] == suffix;
    assert f[..i] == prefix;
    assert f[i + |dir|..|f| - |suffix|] == middle;
    assert MatchAt(f, dir, suffix, i);
  }

  /** ... and only those: a matching filename splits that way. */
  lemma {:induction false} PatternOnlyAccepts(f: string, dir: string, suffix: string)
    requires FullMatch(f, dir, suffix)
    ensures EndsWith(f, suffix)
    ensures exists i | 0 <= i <= |f| - |dir| - |suffix| ::
              && f == f[..i] + dir + f[i + |dir|..|f| - |suffix|] + suffix
              && AnyChars(f[..i])
              && AnyChars(f[i + |dir|..|f| - |suffix|])
  {
    var i :| 0 <= i <= |f| - |dir| - |suffix| && MatchAt(f, dir, suffix, i);
    assert f == f[..i] + dir + f[i + |dir|..|f| - |suffix|] + suffix;
  }

  /** A filename that does not end with the suffix is never matched. */
  lemma {:induction false} SuffixRequired(f: string, dir: string, suffix: string)
    requires !EndsWith(f, suffix)
    ensures !FullMatch(f, dir, suffix)
  {
    if FullMatch(f, dir, suffix) {
      PatternOnlyAccepts(f, dir, suffix);
    }
  }

  /** The directory marker can only begin where its first character stands. */
  lemma {:induction false} MarkerStartRequired(f: string, dir: string, suffix: string)
    requires dir != []
    requires forall i :: 0 <= i <= |f| - |dir| - |suffix| ==> f[i] != dir[0]
    ensures !FullMatch(f, dir, suffix)
  {
    forall i | 0 <= i <= |f| - |dir| - |suffix|
      ensures !MatchAt(f, dir, suffix, i)
    {
      assert f[i..i + |dir|][0] == f[i];
    }
  }

  /** A filename whose last characters differ from the suffix's is never matched. */
  lemma {:induction false} SuffixMismatch(f: string, dir: string, suffix: string, k: nat)
    requires k < |suffix| <= |f| && f[|f| - 1 - k] != suffix[|suffix| - 1 - k]
    ensures !FullMatch(f, dir, suffix)
  {
    assert f[|f| - |suffix|..][|suffix| - 1 - k] == f[|f| - 1 - k];
    SuffixRequired(f, dir, suffix);
  }

  /** A service implementation class under an `impl` directory is protected. */
  lemma ImplExample()
    ensures ImplMatch("src/api" + "/impl/" + "Pet" + "ServiceImpl.java")
  {
    PatternAccepts("src/api", ImplDir, "Pet", ImplSuffix);
  }

  /** A service factory class under a `factories` directory is protected. */
  lemma FactoryExample()
    ensures FactoryMatch("src/api" + "/factories/" + "Pet" + "ServiceFactory.java")
  {
    PatternAccepts("src/api", FactoryDir, "Pet", FactorySuffix);
  }

  /** The directory marker must begin with a '/': a top-level `impl` directory does not count. */
  lemma LeadingSlashRequired()
    ensures !ImplMatch("impl/PetServiceImpl.java")
  {
    var f := "impl/PetServiceImpl.java";
    assert f[0] == 'i' && f[1] == 'm' && f[2] == 'p';
    MarkerStartRequired(f, ImplDir, ImplSuffix);
  }

  /** Trailing text after the suffix breaks the whole-string match. */
  lemma TrailingTextRejected()
    ensures !ImplMatch("a/impl/PetServiceImpl.java.bak")
  {
    var f := "a/impl/PetServiceImpl.java.bak";
    assert f[|f| - 1] == 'k' && ImplSuffix[|ImplSuffix| - 1] == 'a';
    SuffixMismatch(f, ImplDir, ImplSuffix, 0);
  }

  /** The dot before `java` is literal: another character in its place breaks the match. */
  lemma LiteralDotRequired()
    ensures !ImplMatch("a/impl/PetServiceImplXjava")
  {
    var f := "a/impl/PetServiceImplXjava";
    assert f[|f| - 5] == 'X' && ImplSuffix[|ImplSuffix| - 5] == '.';
    SuffixMismatch(f, ImplDir, ImplSuffix, 4);
  }

  /** An ordinary generated file is overwritten when the framework allows it. */
  lemma OrdinaryFileExample()
    ensures ShouldOverwrite("src/main/java/api/PetService.java", _ => true)
  {
    var f := "src/main/java/api/PetService.java";
    assert f[|f| - 6] == 'e';
    assert ImplSuffix[|ImplSuffix| - 6] == 'l';
    SuffixMismatch(f, ImplDir, ImplSuffix, 5);
    assert FactorySuffix[|FactorySuffix| - 6] == 'y';
    SuffixMismatch(f, FactoryDir, FactorySuffix, 5);
  }
}
