/** Searches in strings. */
module CStrings {
  import opened Prelude

  /** strlen: the characters before the first NUL. */
  function Strlen(s: string): (n: nat)
    ensures n <= |s| && (n < |s| ==> s[n] == '\0') && forall i :: 0 <= i < n ==> s[i] != '\0'
  {
    if s == "" || s[0] == '\0' then 0 else 1 + Strlen(s[1..])
  }

  lemma {:induction false} StrlenIs(s: string, n: nat)
    requires n <= |s| && (n < |s| ==> s[n] == '\0') && forall i :: 0 <= i < n ==> s[i] != '\0'
    ensures Strlen(s) == n
  {
  }

  /** Where `c` first occurs in `s`; |s| when it does not. */
  function IndexOf(s: string, c: char): (i: nat)
    ensures i <= |s| && (i < |s| ==> s[i] == c)
    ensures forall j :: 0 <= j < i ==> s[j] != c
  {
    if s == "" || s[0] == c then 0 else 1 + IndexOf(s[1..], c)
  }

  lemma {:induction false} IndexOfIs(s: string, c: char, i: nat)
    requires i <= |s| && (i < |s| ==> s[i] == c) && forall j :: 0 <= j < i ==> s[j] != c
    ensures IndexOf(s, c) == i
  {
  }

  /** The text before and after the first `c`. */
  function Cut(s: string, c: char): Option<(string, string)> {
    var i := IndexOf(s, c);
    if i == |s| then None else Some((s[..i], s[i + 1..]))
  }

  lemma {:induction false} CutAfter(s: string, c: char, rest: string)
    requires c !in s
    ensures Cut(s + [c] + rest, c) == Some((s, rest)) && Cut(s, c) == None
  {
    var t := s + [c] + rest;
    IndexOfIs(t, c, |s|);
    IndexOfIs(s, c, |s|);
    assert t[..|s|] == s && t[|s| + 1..] == rest;
  }

  /** Where `c` last occurs in `s`. */
  function LastIndexOf(s: string, c: char): (i: nat)
    requires c in s
    ensures i < |s| && s[i] == c && forall j :: i < j < |s| ==> s[j] != c
  {
    if s[|s| - 1] == c then |s| - 1 else LastIndexOf(s[..|s| - 1], c)
  }
}
