// Searching in C strings.

module CStrings {
  // memchr and strchr: where c is next, |s| when it is nowhere.
  method FindFrom(s: string, c: char, from: nat) returns (next: nat)
    requires from <= |s|
    ensures from <= next <= |s| && (next < |s| ==> s[next] == c)
    ensures c !in s[from..next]
  {
    next := from;
    while next < |s| && s[next] != c
      invariant from <= next <= |s| && c !in s[from..next]
    {
      next := next + 1;
    }
  }
}
