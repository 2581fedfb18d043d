/** Counting facts about finite sets and sequences without repetitions: a sequence is distinct when its
    set is as large as it is, and a subset of the same size is the whole set. */
module Counting {
  predicate Distinct<T(==)>(s: seq<T>) {
    forall i, j :: 0 <= i < j < |s| ==> s[i] != s[j]
  }

  ghost function Elements<T>(s: seq<T>): set<T> { set x | x in s }

  lemma {:induction false} DistinctCount<T>(s: seq<T>)
    ensures |Elements(s)| <= |s| && (|Elements(s)| == |s| <==> Distinct(s))
  {
    if s != [] {
      var rest := s[1..];
      DistinctCount(rest);
      if s[0] in rest {
        assert Elements(s) == Elements(rest);
        var j :| 0 <= j < |rest| && rest[j] == s[0];
        assert s[j + 1] == s[0];
      } else {
        assert Elements(s) == Elements(rest) + {s[0]};
        if Distinct(rest) { assert Distinct(s); }
        if Distinct(s) { assert forall i, j :: 0 <= i < j < |rest| ==> s[i + 1] == rest[i] && s[j + 1] == rest[j]; }
      }
    }
  }

  lemma SubsetCount<T>(small: set<T>, large: set<T>)
    requires small <= large
    ensures |small| <= |large| && (|small| == |large| ==> small == large)
  {
    assert (large - small) + small == large;
    assert |large - small| + |small| == |large|;
    if |small| == |large| { assert large - small == {}; }
  }

  /** An element counted twice stands at two positions, and the other way round. */
  lemma {:induction false} CountedTwice<T>(s: seq<T>, x: T)
    ensures multiset(s)[x] >= 2 <==> exists i, j :: 0 <= i < j < |s| && s[i] == x && s[j] == x
  {
    if s != [] {
      var rest := s[1..];
      assert s == [s[0]] + rest;
      CountedTwice(rest, x);
      if multiset(s)[x] >= 2 {
        if s[0] == x {
          assert x in multiset(rest);
          var j :| 0 <= j < |rest| && rest[j] == x;
          assert s[j + 1] == x;
        } else {
          var i, j :| 0 <= i < j < |rest| && rest[i] == x && rest[j] == x;
          assert s[i + 1] == x && s[j + 1] == x;
        }
      }
      if i, j :| 0 <= i < j < |s| && s[i] == x && s[j] == x {
        assert rest[j - 1] == x && x in multiset(rest);
        if i > 0 { assert rest[i - 1] == x; }
      }
    }
  }
}
