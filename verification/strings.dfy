/** Text compared whatever its case. Letters beyond the ASCII ones are left as they are. */
module Strings {

  function LowerChar(c: char): char { if 'A' <= c <= 'Z' then (c as int + 32) as char else c }

  function Lower(s: string): string { seq(|s|, i requires 0 <= i < |s| => LowerChar(s[i])) }

  /** The same character, or a capital letter and its small one. */
  predicate SameLetter(a: char, b: char) {
    || a == b
    || ('A' <= a <= 'Z' && a as int + 32 == b as int)
    || ('A' <= b <= 'Z' && b as int + 32 == a as int)
  }

  /** Two texts are lowered to one exactly when they differ in nothing but the case of their letters. */
  lemma LowerIff(s: string, t: string)
    ensures Lower(s) == Lower(t) <==> |s| == |t| && forall i :: 0 <= i < |s| ==> SameLetter(s[i], t[i])
  {
    assert |Lower(s)| == |s| && |Lower(t)| == |t|;
    assert forall i :: 0 <= i < |s| ==> Lower(s)[i] == LowerChar(s[i]);
    assert forall i :: 0 <= i < |t| ==> Lower(t)[i] == LowerChar(t[i]);
    if |s| == |t| && forall i :: 0 <= i < |s| ==> SameLetter(s[i], t[i]) {
      assert forall i :: 0 <= i < |s| ==> LowerChar(s[i]) == LowerChar(t[i]);
    } else if |s| == |t| {
      var i :| 0 <= i < |s| && !SameLetter(s[i], t[i]);
      assert Lower(s)[i] != Lower(t)[i];
    }
  }
}
