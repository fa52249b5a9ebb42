/**
  Reading a NUL-terminated C string. A string is the sequence of its characters;
  reading at or past its end gives the terminator.
*/
module CText {
  const NUL: char := '\0'

  function At(s: string, i: nat): char {
    if i < |s| then s[i] else NUL
  }

  predicate IsSpace(c: char) {
    c == '\n' || c == ' ' || c == '\t' || c == '\r'
  }

  function Lower(c: char): char {
    if 'A' <= c <= 'Z' then c - 'A' + 'a' else c
  }

  // _tcsnicmp(s + i, p, strlen(p)) == 0, for a p without NUL
  predicate SameLetters(s: string, i: nat, p: string) {
    i + |p| <= |s| && forall k | 0 <= k < |p| :: Lower(s[i + k]) == Lower(p[k])
  }

  // The characters before the first NUL: what a C string holding s reads as.
  function UpToNul(s: string): string {
    if s == [] || s[0] == NUL then [] else [s[0]] + UpToNul(s[1..])
  }

  lemma {:induction false} UpToNulId(s: string)
    requires NUL !in s
    ensures UpToNul(s) == s
  {
    if s != [] { UpToNulId(s[1..]); }
  }
}
