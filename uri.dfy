/**
 * The routing key: a request path stored lowercased, compared by plain
 * string order and equality.
 */
module Uris {
  import opened Ascii
  import opened Strings

  class Uri {
    var path: string

    /** The stored path is always in normalised (lowercase) form. */
    ghost predicate Valid()
      reads this
    {
      Lowercase(path) == path
    }

    /** Uri() = default: the empty path. */
    constructor Empty()
      ensures path == [] && Valid()
    {
      path := [];
    }

    /** Uri(path): stores the path and lowercases it. */
    constructor (p: string)
      ensures path == Lowercase(p) && Valid()
    {
      path := p;
      new;
      SetPathToLowercase();
      LowercaseIdempotent(p);
    }

    /** SetPath: replaces the path and normalises it the same way the constructor does. */
    method SetPath(p: string)
      modifies this
      ensures path == Lowercase(p) && Valid()
    {
      path := p;
      SetPathToLowercase();
      LowercaseIdempotent(p);
    }

    /** In-place std::transform of path_ with tolower. */
    method SetPathToLowercase()
      modifies this
      ensures path == Lowercase(old(path))
    {
      var i := 0;
      while i < |path|
        invariant i <= |path| == |old(path)|
        invariant forall k :: 0 <= k < i ==> path[k] == ToLower(old(path)[k])
        invariant forall k :: i <= k < |path| ==> path[k] == old(path)[k]
      {
        path := path[i := ToLower(path[i])];
        i := i + 1;
      }
    }

    function Path(): string
      reads this
    {
      path
    }

    /** operator<: plain string order on the stored paths. */
    predicate Less(other: Uri)
      reads this, other
    {
      StrLess(path, other.path)
    }

    /** operator==: plain string equality on the stored paths. */
    predicate Equals(other: Uri)
      reads this, other
    {
      path == other.path
    }
  }

  /** Two constructed Uris are equal keys exactly when their paths agree ignoring ASCII case. */
  lemma {:induction false} UriEqualsIff(a: Uri, b: Uri, pa: string, pb: string)
    requires a.path == Lowercase(pa) && b.path == Lowercase(pb)
    ensures a.Equals(b) <==> EqualIgnoringCase(pa, pb)
  {
    LowercaseEqualIff(pa, pb);
  }

  /** operator< is a strict total order on stored paths and agrees with operator==. */
  lemma UriOrder(a: Uri, b: Uri, c: Uri)
    ensures !a.Less(a)
    ensures a.Less(b) && b.Less(c) ==> a.Less(c)
    ensures !a.Less(b) && !b.Less(a) <==> a.Equals(b)
    ensures a.Less(b) ==> !b.Less(a)
  {
    StrLessIrreflexive(a.path);
    StrLessTrichotomy(a.path, b.path);
    if a.Less(b) && b.Less(c) { StrLessTransitive(a.path, b.path, c.path); }
  }

  /** A client of the class: "/Foo" and "/foo" are the same routing key. */
  method SameKeyExample() returns (same: bool)
    ensures same
  {
    var upper := new Uri("/Foo");
    var lower := new Uri("/foo");
    assert Lowercase("/Foo") == "/foo";
    same := upper.path == lower.path;
  }
}
