/**
 * NUL-terminated wide strings (PWSTR) as Dafny sequences.
 *
 * A buffer is a `seq<char>` that holds at least one NUL; the string it
 * denotes is everything before the first NUL, which is what `wcslen` measures.
 */
module WideString {

  const Nul: char := '\0'

  /** The buffer holds a terminator, so a scan from index 0 stops inside it. */
  predicate Terminated(s: seq<char>) {
    Nul in s
  }

  /** Index of the first NUL: the length of the string the buffer holds. */
  function FirstNul(s: seq<char>): (n: nat)
    requires Terminated(s)
    ensures n < |s| && s[n] == Nul
    ensures forall i :: 0 <= i < n ==> s[i] != Nul
  {
    if s[0] == Nul then 0
    else
      assert Terminated(s[1..]) by {
        var k :| 0 <= k < |s| && s[k] == Nul;
        assert s[1..][k - 1] == Nul;
      }
      1 + FirstNul(s[1..])
  }

  /** The characters the buffer holds before its terminator. */
  function CStr(s: seq<char>): (t: seq<char>)
    requires Terminated(s)
    ensures |t| < |s| && s[|t|] == Nul
    ensures Nul !in t
    ensures t == s[..|t|]
  {
    s[..FirstNul(s)]
  }

  /**
   * A buffer whose first |u| characters are u (with no NUL among them)
   * followed by a NUL holds exactly the string u.
   */
  lemma CStrOfPrefix(s: seq<char>, u: seq<char>)
    requires Nul !in u && |u| < |s| && s[..|u|] == u && s[|u|] == Nul
    ensures Terminated(s) && CStr(s) == u
  {
  }
}
