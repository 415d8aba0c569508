/**
 * Character classification and case mapping of the C library in the
 * "C" locale (tolower, toupper, isspace), which is what the server's
 * lambdas call.  Only the 26 ASCII letters change case.
 */
module Ascii {

  predicate IsUpper(c: char) { 'A' <= c <= 'Z' }

  predicate IsLower(c: char) { 'a' <= c <= 'z' }

  /** tolower: maps 'A'..'Z' to 'a'..'z' and leaves every other character alone. */
  function ToLower(c: char): char
  {
    if IsUpper(c) then (c as int + 32) as char else c
  }

  /** toupper: maps 'a'..'z' to 'A'..'Z' and leaves every other character alone. */
  function ToUpper(c: char): char
  {
    if IsLower(c) then (c as int - 32) as char else c
  }

  /** isspace: space, horizontal tab, line feed, vertical tab, form feed, carriage return. */
  predicate IsSpace(c: char)
  {
    c == ' ' || c == '\t' || c == '\n' || c as int == 11 || c as int == 12 || c == '\r'
  }

  /** std::transform with tolower over a whole string. */
  function Lowercase(s: string): (r: string)
    ensures |r| == |s|
    ensures forall i :: 0 <= i < |s| ==> r[i] == ToLower(s[i])
  {
    if s == [] then [] else [ToLower(s[0])] + Lowercase(s[1..])
  }

  /** std::transform with toupper over a whole string. */
  function Uppercase(s: string): (r: string)
    ensures |r| == |s|
    ensures forall i :: 0 <= i < |s| ==> r[i] == ToUpper(s[i])
  {
    if s == [] then [] else [ToUpper(s[0])] + Uppercase(s[1..])
  }

  /** Two characters are the same letter when they are equal or one is the capital of the other. */
  predicate SameIgnoringCase(c: char, d: char)
  {
    c == d || (IsUpper(c) && d == ToLower(c)) || (IsUpper(d) && c == ToLower(d))
  }

  /** Reference definition of ASCII case-insensitive string equality, character by character. */
  predicate EqualIgnoringCase(a: string, b: string)
  {
    |a| == |b| && (a == [] || (SameIgnoringCase(a[0], b[0]) && EqualIgnoringCase(a[1..], b[1..])))
  }

  lemma {:induction false} EqualIgnoringCaseAt(a: string, b: string)
    ensures EqualIgnoringCase(a, b) <==>
            (|a| == |b| && forall i :: 0 <= i < |a| ==> SameIgnoringCase(a[i], b[i]))
  {
    if a != [] && |a| == |b| {
      EqualIgnoringCaseAt(a[1..], b[1..]);
      if forall i :: 0 <= i < |a| ==> SameIgnoringCase(a[i], b[i]) {
        assert forall i :: 0 <= i < |a| - 1 ==> a[1..][i] == a[i + 1] && b[1..][i] == b[i + 1];
      }
      if EqualIgnoringCase(a, b) {
        forall i | 0 <= i < |a| ensures SameIgnoringCase(a[i], b[i]) {
          if i > 0 { assert a[1..][i - 1] == a[i] && b[1..][i - 1] == b[i]; }
        }
      }
    }
  }

  /** Lowercasing never leaves an upper-case letter behind. */
  lemma LowercaseHasNoUpper(s: string)
    ensures forall i :: 0 <= i < |Lowercase(s)| ==> !IsUpper(Lowercase(s)[i])
  {
  }

  /** Lowercasing is idempotent. */
  lemma LowercaseIdempotent(s: string)
    ensures Lowercase(Lowercase(s)) == Lowercase(s)
  {
    assert forall i :: 0 <= i < |s| ==> ToLower(ToLower(s[i])) == ToLower(s[i]);
  }

  /** A string already without upper-case letters is its own lowercase form. */
  lemma LowercaseOfLower(s: string)
    requires forall i :: 0 <= i < |s| ==> !IsUpper(s[i])
    ensures Lowercase(s) == s
  {
  }

  /** Equal lowercase forms exactly when the strings are equal ignoring ASCII case. */
  lemma LowercaseEqualIff(a: string, b: string)
    ensures Lowercase(a) == Lowercase(b) <==> EqualIgnoringCase(a, b)
  {
    EqualIgnoringCaseAt(a, b);
    if Lowercase(a) == Lowercase(b) {
      forall i | 0 <= i < |a| ensures SameIgnoringCase(a[i], b[i]) {
        assert Lowercase(a)[i] == Lowercase(b)[i];
      }
    }
    if EqualIgnoringCase(a, b) {
      forall i | 0 <= i < |a| ensures Lowercase(a)[i] == Lowercase(b)[i] {
        assert SameIgnoringCase(a[i], b[i]);
      }
    }
  }

  /** Equal uppercase forms exactly when the strings are equal ignoring ASCII case. */
  lemma UppercaseEqualIff(a: string, b: string)
    ensures Uppercase(a) == Uppercase(b) <==> EqualIgnoringCase(a, b)
  {
    EqualIgnoringCaseAt(a, b);
    if Uppercase(a) == Uppercase(b) {
      forall i | 0 <= i < |a| ensures SameIgnoringCase(a[i], b[i]) {
        assert Uppercase(a)[i] == Uppercase(b)[i];
      }
    }
    if EqualIgnoringCase(a, b) {
      forall i | 0 <= i < |a| ensures Uppercase(a)[i] == Uppercase(b)[i] {
        assert SameIgnoringCase(a[i], b[i]);
      }
    }
  }
}
