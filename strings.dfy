// Facts about string concatenation shared by the key-building helpers
// (texture uniform names, GUI folder keys, unique folder names).

module Strings {

  /** Appending the same suffix to two different strings keeps them different. */
  lemma {:induction false} SuffixCancel(a: string, b: string, suffix: string)
    requires a + suffix == b + suffix
    ensures a == b
  {
    assert |a| == |b|;
    assert a == (a + suffix)[..|a|];
    assert b == (b + suffix)[..|b|];
  }

  /** Two strings that end in different characters are different. */
  lemma {:induction false} LastCharSeparates(a: string, b: string, s: string, t: string)
    requires |s| > 0 && |t| > 0 && s[|s| - 1] != t[|t| - 1]
    ensures a + s != b + t
  {
    var x, y := a + s, b + t;
    assert x[|x| - 1] == s[|s| - 1];
    assert y[|y| - 1] == t[|t| - 1];
  }
}
