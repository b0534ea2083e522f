// Python's `sorted`: a stable sort by a comparison, and the sorted list of a set.
module Sorting {

  ghost predicate TotalPreorder<T(!new)>(le: (T, T) -> bool) {
    && (forall x, y :: le(x, y) || le(y, x))
    && (forall x, y, z :: le(x, y) && le(y, z) ==> le(x, z))
  }

  ghost predicate Ordered<T>(le: (T, T) -> bool, s: seq<T>) {
    forall i, j :: 0 <= i < j < |s| ==> le(s[i], s[j])
  }

  ghost predicate Distinct<T>(s: seq<T>) {
    forall i, j :: 0 <= i < j < |s| ==> s[i] != s[j]
  }

  function Insert<T>(le: (T, T) -> bool, x: T, s: seq<T>): (r: seq<T>)
    ensures multiset(r) == multiset(s) + multiset{x} && |r| == |s| + 1
  {
    if s == [] then [x]
    else if le(x, s[0]) then [x] + s
    else
      assert s == [s[0]] + s[1..];
      [s[0]] + Insert(le, x, s[1..])
  }

  function SortBy<T>(le: (T, T) -> bool, s: seq<T>): (r: seq<T>)
    ensures multiset(r) == multiset(s) && |r| == |s|
  {
    if s == [] then []
    else
      assert s == [s[0]] + s[1..];
      Insert(le, s[0], SortBy(le, s[1..]))
  }

  lemma {:induction false} InsertOrdered<T(!new)>(le: (T, T) -> bool, x: T, s: seq<T>)
    requires TotalPreorder(le) && Ordered(le, s)
    ensures Ordered(le, Insert(le, x, s))
  {
    if s != [] && !le(x, s[0]) {
      InsertOrdered(le, x, s[1..]);
      var r := Insert(le, x, s[1..]);
      forall y | y in r
        ensures le(s[0], y)
      {
        assert y in multiset(r);
        assert y == x || y in s[1..];
      }
    }
  }

  // `x` may stand before `y`: it is smaller, or equal and was before it.
  ghost predicate InPlace<T>(le: (T, T) -> bool, earlier: (T, T) -> bool, x: T, y: T) {
    le(x, y) && (le(y, x) ==> earlier(x, y))
  }

  ghost predicate Stable<T>(le: (T, T) -> bool, earlier: (T, T) -> bool, s: seq<T>) {
    forall i, j {:trigger InPlace(le, earlier, s[i], s[j])} :: 0 <= i < j < |s| ==> InPlace(le, earlier, s[i], s[j])
  }

  lemma {:induction false} InsertStable<T(!new)>(le: (T, T) -> bool, earlier: (T, T) -> bool, x: T, s: seq<T>)
    requires TotalPreorder(le) && Stable(le, earlier, s) && forall y :: y in s ==> earlier(x, y)
    ensures Stable(le, earlier, Insert(le, x, s))
  {
    var r := Insert(le, x, s);
    if s != [] && !le(x, s[0]) {
      var rest := s[1..];
      forall i, j | 0 <= i < j < |rest|
        ensures InPlace(le, earlier, rest[i], rest[j])
      {
        assert InPlace(le, earlier, s[i + 1], s[j + 1]);
      }
      InsertStable(le, earlier, x, rest);
      var more := Insert(le, x, rest);
      assert r == [s[0]] + more;
      forall y | y in more
        ensures InPlace(le, earlier, s[0], y)
      {
        assert y in multiset(more);
        if y != x {
          var j :| 0 <= j < |rest| && rest[j] == y;
          assert InPlace(le, earlier, s[0], s[j + 1]);
        }
      }
      forall i, j | 0 <= i < j < |r|
        ensures InPlace(le, earlier, r[i], r[j])
      {
        if i > 0 { assert InPlace(le, earlier, more[i - 1], more[j - 1]); }
        else { assert more[j - 1] in more; }
      }
    } else if s != [] {
      forall y | y in s
        ensures InPlace(le, earlier, x, y)
      {
        var j :| 0 <= j < |s| && s[j] == y;
        assert j > 0 ==> InPlace(le, earlier, s[0], s[j]);
      }
      assert r == [x] + s;
      forall i, j | 0 <= i < j < |r|
        ensures InPlace(le, earlier, r[i], r[j])
      {
        if i > 0 { assert InPlace(le, earlier, s[i - 1], s[j - 1]); }
        else { assert s[j - 1] in s; }
      }
    }
  }

  // Equal elements keep the order they had.
  lemma {:induction false} SortByStable<T(!new)>(le: (T, T) -> bool, earlier: (T, T) -> bool, s: seq<T>)
    requires TotalPreorder(le) && forall i, j :: 0 <= i < j < |s| ==> earlier(s[i], s[j])
    ensures Stable(le, earlier, SortBy(le, s))
  {
    if s != [] {
      var rest := SortBy(le, s[1..]);
      SortByStable(le, earlier, s[1..]);
      forall y | y in rest
        ensures earlier(s[0], y)
      {
        assert y in multiset(rest);
        var j :| 0 <= j < |s[1..]| && s[1..][j] == y;
        assert s[j + 1] == y;
      }
      InsertStable(le, earlier, s[0], rest);
    }
  }

  lemma {:induction false} SortByOrdered<T(!new)>(le: (T, T) -> bool, s: seq<T>)
    requires TotalPreorder(le)
    ensures Ordered(le, SortBy(le, s))
  {
    if s != [] {
      SortByOrdered(le, s[1..]);
      InsertOrdered(le, s[0], SortBy(le, s[1..]));
    }
  }

  lemma SortByMembers<T>(le: (T, T) -> bool, s: seq<T>)
    ensures forall x :: x in SortBy(le, s) <==> x in s
  {
    forall x
      ensures x in SortBy(le, s) <==> x in s
    {
      assert x in SortBy(le, s) <==> x in multiset(SortBy(le, s));
    }
  }

  lemma OnceIsDistinct<T>(s: seq<T>)
    requires forall x :: multiset(s)[x] <= 1
    ensures Distinct(s)
  {
    forall i, j | 0 <= i < j < |s|
      ensures s[i] != s[j]
    {
      assert s == s[..j] + s[j..];
      assert s[i] == s[..j][i] && s[j] == s[j..][0];
      assert multiset(s)[s[i]] == multiset(s[..j])[s[i]] + multiset(s[j..])[s[i]];
    }
  }

  lemma {:induction false} DistinctIsOnce<T>(s: seq<T>)
    requires Distinct(s)
    ensures forall x :: multiset(s)[x] <= 1
  {
    if s != [] {
      DistinctIsOnce(s[1..]);
      assert s == [s[0]] + s[1..];
      assert s[0] !in s[1..];
    }
  }

  lemma SortByDistinct<T>(le: (T, T) -> bool, s: seq<T>)
    requires Distinct(s)
    ensures Distinct(SortBy(le, s))
  {
    DistinctIsOnce(s);
    OnceIsDistinct(SortBy(le, s));
  }

  ghost function Pick<T>(s: set<T>): (x: T)
    requires s != {}
    ensures x in s
  {
    var x :| x in s;
    x
  }

  predicate IsLeast(m: int, s: set<int>) {
    m in s && forall x :: x in s ==> m <= x
  }

  lemma {:induction false} HasMinimum(s: set<int>) returns (m: int)
    requires s != {}
    ensures IsLeast(m, s)
    decreases |s|
  {
    m := Pick(s);
    var rest := s - {m};
    assert forall x :: x in s ==> x == m || x in rest;
    if rest != {} {
      var n := HasMinimum(rest);
      m := if m <= n then m else n;
    }
  }

  lemma MinimumExists(s: set<int>)
    requires s != {}
    ensures exists m {:trigger IsLeast(m, s)} :: m in s && IsLeast(m, s)
  {
    var m := HasMinimum(s);
  }

  function Minimum(s: set<int>): (m: int)
    requires s != {}
    ensures m in s && forall x :: x in s ==> m <= x
  {
    MinimumExists(s);
    var m :| m in s && IsLeast(m, s);
    m
  }

  lemma LeastFirst(s: set<int>, m: int, rest: seq<int>)
    requires m in s && (forall x :: x in s ==> m <= x) && forall x :: x in rest <==> x in s - {m}
    ensures forall x :: x in [m] + rest <==> x in s
    ensures forall i :: 0 <= i < |rest| ==> m < rest[i]
  {
    forall i | 0 <= i < |rest|
      ensures m < rest[i]
    {
      assert rest[i] in rest;
    }
  }

  // `sorted(s)` for a set of numbers: its members once each, in increasing order.
  function SortedSet(s: set<int>): (r: seq<int>)
    ensures |r| == |s|
    ensures forall x :: x in r <==> x in s
    ensures forall i, j :: 0 <= i < j < |r| ==> r[i] < r[j]
  {
    if s == {} then []
    else
      var m := Minimum(s);
      var rest := SortedSet(s - {m});
      LeastFirst(s, m, rest);
      [m] + rest
  }
}
