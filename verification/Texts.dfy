/** Reading a text from left to right. */
module Texts {

  /** Past a piece of text the rest of the text stands. */
  lemma {:induction false} Past(s: string, i: nat, a: string, rest: string)
    requires i <= |s| && s[i..] == a + rest
    ensures i + |a| <= |s| && s[i..i + |a|] == a && s[i + |a|..] == rest
    ensures |a| > 0 ==> s[i] == a[0]
    ensures |rest| == |s| - i - |a| && (|rest| > 0 ==> s[i + |a|] == rest[0])
  {
    var t := s[i..];
    assert t[..|a|] == a && t[|a|..] == rest;
    assert s[i..i + |a|] == t[..|a|];
    assert s[i + |a|..] == t[|a|..];
  }

  /** The text behind the first character. */
  lemma {:induction false} OneOn(s: string, pos: nat)
    requires pos < |s|
    ensures s[pos..][1..] == s[pos + 1..] && s[pos..][0] == s[pos]
  {
  }
}
