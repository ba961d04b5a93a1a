/** Strings read through pointers: the place after the last character holds the terminator. */
module CStrings {

  /** A C string without its terminator. */
  type CString = s: string | '\0' !in s witness ""

  /** No place after the terminator may be read. */
  function At(s: string, i: nat): char
    requires i <= |s|
  {
    if i < |s| then s[i] else '\0'
  }

  lemma {:induction false} TerminatorIsEnd(s: CString, j: nat)
    requires j <= |s|
    ensures At(s, j) == '\0' <==> j == |s|
  {
    assert forall k :: 0 <= k < |s| ==> s[k] in s && s[k] != '\0';
  }

  /** What is left of a string read through a pointer: the part before its first terminator. */
  function UpToNul(s: string): (r: CString)
    ensures r <= s && (|r| < |s| ==> s[|r|] == '\0')
    ensures r == s <==> '\0' !in s
  {
    if s == "" || s[0] == '\0' then "" else [s[0]] + UpToNul(s[1..])
  }
}
