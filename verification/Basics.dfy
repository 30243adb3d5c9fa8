/** What several modules share. */
module Basics {
  datatype Option<T> = None | Some(value: T)

  /** strings.HasSuffix. */
  predicate HasSuffix(s: string, suffix: string) {
    |suffix| <= |s| && s[|s| - |suffix|..] == suffix
  }

  lemma SuffixMeaning(s: string, suffix: string)
    ensures HasSuffix(s, suffix) <==> exists p :: s == p + suffix
  {
    if HasSuffix(s, suffix) {
      assert s == s[..|s| - |suffix|] + suffix;
    }
  }
}
