/** Prefixes and subsequences, and the regrouping of sequences, which the solver does not do on its own. */
module Seqs {

  predicate StartsWith(s: string, prefix: string) {
    |prefix| <= |s| && s[..|prefix|] == prefix
  }

  lemma Associates<T>(a: seq<T>, b: seq<T>, c: seq<T>)
    ensures a + (b + c) == a + b + c
  {
  }

  /** s is what is left of a when some of its elements are struck out. */
  predicate IsSubsequence(s: seq<string>, a: seq<string>) {
    |s| == 0 || (|a| > 0 && ((s[0] == a[0] && IsSubsequence(s[1..], a[1..])) || IsSubsequence(s, a[1..])))
  }

  lemma {:induction false} SubsequenceAppend(s: seq<string>, a: seq<string>, x: string)
    requires IsSubsequence(s, a)
    ensures IsSubsequence(s, a + [x]) && IsSubsequence(s + [x], a + [x])
    decreases |a|
  {
    if |a| == 0 {
      assert (a + [x])[1..] == [] && (s + [x])[1..] == [];
    } else {
      assert (a + [x])[1..] == a[1..] + [x];
      if |s| > 0 && s[0] == a[0] && IsSubsequence(s[1..], a[1..]) {
        SubsequenceAppend(s[1..], a[1..], x);
        assert (s + [x])[1..] == s[1..] + [x];
      } else {
        assert IsSubsequence(s, a[1..]);
        SubsequenceAppend(s, a[1..], x);
      }
    }
  }
}
