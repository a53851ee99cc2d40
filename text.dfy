/** Character classes and string predicates shared by the other modules. */
module Text {

  /** The regular-expression class `[a-zA-Z0-9]`, and Python's `str.isalnum` on ASCII. */
  predicate IsAsciiAlnum(c: char) {
    ('a' <= c <= 'z') || ('A' <= c <= 'Z') || ('0' <= c <= '9')
  }

  /** Python's `s.endswith(suffix)`. */
  predicate EndsWith(s: string, suffix: string) {
    |suffix| <= |s| && s[|s| - |suffix|..] == suffix
  }

  /** Some character of `s` is not `c`. */
  predicate HasOtherThan(s: string, c: char) {
    exists j :: 0 <= j < |s| && s[j] != c
  }

  /** A string ending in `x + suffix` ends in `suffix`. */
  lemma EndsWithConcat(s: string, x: string, suffix: string)
    requires EndsWith(s, x + suffix)
    ensures EndsWith(s, suffix)
  {
    assert s[|s| - |suffix|..] == s[|s| - |x + suffix|..][|x|..];
  }

  /** Being a prefix is transitive. */
  lemma PrefixTransitive(x: string, y: string, z: string)
    requires |x| <= |y| && y[..|x|] == x
    requires |y| <= |z| && z[..|y|] == y
    ensures |x| <= |z| && z[..|x|] == x
  {
    assert z[..|x|] == z[..|y|][..|x|];
  }
}
