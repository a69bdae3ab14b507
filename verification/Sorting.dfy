/**
 * The built-in stable sort, by insertion: what it is given, in order of `le`, equal elements as
 * they came.
 */
module Sorting {

  ghost predicate TotalOrder<T(!new)>(le: (T, T) -> bool) {
    && (forall a, b :: le(a, b) || le(b, a))
    && (forall a, b, c :: le(a, b) && le(b, c) ==> le(a, c))
  }

  ghost predicate SortedBy<T>(s: seq<T>, le: (T, T) -> bool) {
    forall i, j :: 0 <= i < j < |s| ==> le(s[i], s[j])
  }

  /** `x` placed before the first element of `s` that it is not after. */
  function Insert<T>(x: T, s: seq<T>, le: (T, T) -> bool): (r: seq<T>)
    ensures |r| == |s| + 1
  {
    if s == [] then [x]
    else if le(x, s[0]) then [x] + s
    else [s[0]] + Insert(x, s[1..], le)
  }

  function Sort<T>(s: seq<T>, le: (T, T) -> bool): (r: seq<T>)
    ensures |r| == |s|
  {
    if s == [] then [] else Insert(s[0], Sort(s[1..], le), le)
  }

  lemma {:induction false} InsertKeeps<T>(x: T, s: seq<T>, le: (T, T) -> bool)
    ensures multiset(Insert(x, s, le)) == multiset{x} + multiset(s)
  {
    if s != [] {
      assert s == [s[0]] + s[1..];
      if !le(x, s[0]) {
        InsertKeeps(x, s[1..], le);
      }
    }
  }

  lemma {:induction false} InsertSorted<T(!new)>(x: T, s: seq<T>, le: (T, T) -> bool)
    requires TotalOrder(le) && SortedBy(s, le)
    ensures SortedBy(Insert(x, s, le), le)
  {
    if s != [] && !le(x, s[0]) {
      var tail := Insert(x, s[1..], le);
      InsertSorted(x, s[1..], le);
      InsertKeeps(x, s[1..], le);
      forall j | 0 <= j < |tail|
        ensures le(s[0], tail[j])
      {
        assert tail[j] in multiset(tail);
        assert tail[j] == x || tail[j] in s[1..];
      }
    }
  }

  lemma {:induction false} SortSorts<T(!new)>(s: seq<T>, le: (T, T) -> bool)
    requires TotalOrder(le)
    ensures SortedBy(Sort(s, le), le) && multiset(Sort(s, le)) == multiset(s)
  {
    if s != [] {
      SortSorts(s[1..], le);
      InsertSorted(s[0], Sort(s[1..], le), le);
      InsertKeeps(s[0], Sort(s[1..], le), le);
      assert s == [s[0]] + s[1..];
    }
  }

  lemma {:induction false} SortOfSorted<T>(s: seq<T>, le: (T, T) -> bool)
    requires SortedBy(s, le)
    ensures Sort(s, le) == s
  {
    if s != [] {
      SortOfSorted(s[1..], le);
    }
  }

  /** No two of the elements are level. */
  ghost predicate NoneLevel<T>(s: seq<T>, le: (T, T) -> bool) {
    forall a, b :: a in s && b in s && le(a, b) && le(b, a) ==> a == b
  }

  /** There is one sorted arrangement of given elements when no two are level. */
  lemma {:induction false} SortedIsUnique<T(!new)>(s: seq<T>, t: seq<T>, le: (T, T) -> bool)
    requires TotalOrder(le) && NoneLevel(s, le)
    requires SortedBy(s, le) && SortedBy(t, le) && multiset(s) == multiset(t)
    ensures s == t
  {
    assert |s| == |multiset(s)| == |multiset(t)| == |t|;
    if s != [] {
      FirstIsFirst(s, t, le);
      assert s == [s[0]] + s[1..] && t == [t[0]] + t[1..];
      assert multiset(s[1..]) == multiset(s) - multiset{s[0]};
      assert multiset(t[1..]) == multiset(t) - multiset{t[0]};
      assert forall x :: x in s[1..] ==> x in s;
      hide TotalOrder;
      SortedIsUnique(s[1..], t[1..], le);
    }
  }

  lemma FirstIsFirst<T(!new)>(s: seq<T>, t: seq<T>, le: (T, T) -> bool)
    requires TotalOrder(le) && NoneLevel(s, le) && s != [] && t != []
    requires SortedBy(s, le) && SortedBy(t, le) && multiset(s) == multiset(t)
    ensures s[0] == t[0]
  {
    assert s[0] in multiset(t) && t[0] in multiset(s);
    assert s[0] in t && t[0] in s;
    assert le(s[0], t[0]) && le(t[0], s[0]);
  }

  ghost predicate NoDuplicates<T>(s: seq<T>) {
    forall i, j :: 0 <= i < j < |s| ==> s[i] != s[j]
  }

  lemma {:induction false} NoDuplicatesCounts<T>(s: seq<T>)
    ensures NoDuplicates(s) <==> forall v :: multiset(s)[v] <= 1
  {
    if s != [] {
      var rest := s[1..];
      assert s == [s[0]] + rest;
      NoDuplicatesCounts(rest);
      assert forall v :: multiset(s)[v] == multiset(rest)[v] + if v == s[0] then 1 else 0;
      if NoDuplicates(rest) && s[0] !in rest {
        assert forall i :: 0 < i < |s| ==> s[i] == rest[i - 1];
      }
      if s[0] in rest {
        var j :| 0 <= j < |rest| && rest[j] == s[0];
        assert s[j + 1] == s[0];
        assert multiset(s)[s[0]] >= 2;
      }
      if NoDuplicates(s) {
        assert forall i :: 0 <= i < |rest| ==> rest[i] == s[i + 1];
      }
    }
  }

  lemma SortKeepsDistinct<T(!new)>(s: seq<T>, le: (T, T) -> bool)
    requires TotalOrder(le) && NoDuplicates(s)
    ensures NoDuplicates(Sort(s, le))
  {
    SortSorts(s, le);
    NoDuplicatesCounts(s);
    NoDuplicatesCounts(Sort(s, le));
  }

  lemma SortMembers<T(!new)>(s: seq<T>, le: (T, T) -> bool, x: T)
    requires TotalOrder(le)
    ensures x in Sort(s, le) <==> x in s
  {
    SortSorts(s, le);
    assert x in Sort(s, le) <==> x in multiset(Sort(s, le));
    assert x in s <==> x in multiset(s);
  }
}
