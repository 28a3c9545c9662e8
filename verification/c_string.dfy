/**
 * C strings as the server sees them: a `string` here is the contents of a
 * C string, that is the characters before its terminating NUL.
 */
module CString {
  import opened Types

  const NUL: char := '\0'

  /** A sequence of characters that can be the contents of a C string. */
  predicate IsCString(s: string) {
    forall i :: 0 <= i < |s| ==> s[i] != NUL
  }

  /** tolower in the C locale: only ASCII letters change. */
  function ToLower(c: char): (l: char)
    ensures 'A' <= c <= 'Z' ==> l as int == c as int + 32
    ensures !('A' <= c <= 'Z') ==> l == c
  {
    if 'A' <= c <= 'Z' then (c as int + 32) as char else c
  }

  /** strcasecmp(a, b) == 0: equal length and equal character by character after tolower. */
  predicate CaseEq(a: string, b: string) {
    |a| == |b| && forall i :: 0 <= i < |a| ==> ToLower(a[i]) == ToLower(b[i])
  }

  /**
   * strchr(s, c) for a non-NUL c: the index of the first occurrence of c in s,
   * or None (a NULL pointer) when c does not occur.
   */
  function StrChr(s: string, c: char): (r: Option<nat>)
    requires c != NUL
    ensures r.Some? ==> r.value < |s| && s[r.value] == c && c !in s[..r.value]
    ensures r.None? <==> c !in s
  {
    if |s| == 0 then None
    else if s[0] == c then Some(0)
    else match StrChr(s[1..], c)
      case None => None
      case Some(i) => assert s[1..][..i] == s[1..i + 1]; Some(i + 1)
  }
}
