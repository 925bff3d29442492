/** Array.sort as both routers use it: stable, ascending, followed by pop. */
module Sorting {

  /** `x` placed after every element that does not come after it. */
  function Insert<T>(x: T, s: seq<T>, le: (T, T) -> bool): seq<T> {
    if s == [] then [x]
    else if le(s[|s| - 1], x) then s + [x]
    else Insert(x, s[..|s| - 1], le) + [s[|s| - 1]]
  }

  function StableSort<T>(s: seq<T>, le: (T, T) -> bool): (r: seq<T>)
    ensures |r| == |s|
  {
    if s == [] then []
    else
      var front := StableSort(s[..|s| - 1], le);
      InsertLength(s[|s| - 1], front, le);
      Insert(s[|s| - 1], front, le)
  }

  lemma {:induction false} InsertLength<T>(x: T, s: seq<T>, le: (T, T) -> bool)
    ensures |Insert(x, s, le)| == |s| + 1
  {
    if s != [] {
      InsertLength(x, s[..|s| - 1], le);
    }
  }

  /** `le` orders the elements of `s` up to ties. */
  ghost predicate Preorders<T(!new)>(le: (T, T) -> bool, s: seq<T>) {
    && (forall x, y :: x in s && y in s ==> le(x, y) || le(y, x))
    && (forall x, y, z :: x in s && y in s && z in s && le(x, y) && le(y, z) ==> le(x, z))
  }

  ghost predicate Sorted<T(!new)>(s: seq<T>, le: (T, T) -> bool) {
    forall i, j :: 0 <= i < j < |s| ==> le(s[i], s[j])
  }

  lemma {:induction false} InsertPermutes<T>(x: T, s: seq<T>, le: (T, T) -> bool)
    ensures multiset(Insert(x, s, le)) == multiset(s) + multiset{x}
  {
    if s != [] {
      assert s == s[..|s| - 1] + [s[|s| - 1]];
      InsertPermutes(x, s[..|s| - 1], le);
    }
  }

  lemma {:induction false} SortPermutes<T>(s: seq<T>, le: (T, T) -> bool)
    ensures multiset(StableSort(s, le)) == multiset(s)
  {
    if s != [] {
      assert s == s[..|s| - 1] + [s[|s| - 1]];
      SortPermutes(s[..|s| - 1], le);
      InsertPermutes(s[|s| - 1], StableSort(s[..|s| - 1], le), le);
    }
  }

  lemma {:induction false} SortedSnoc<T(!new)>(s: seq<T>, last: T, le: (T, T) -> bool)
    requires Sorted(s, le) && forall y :: y in s ==> le(y, last)
    ensures Sorted(s + [last], le)
  {
    forall i, j | 0 <= i < j < |s| + 1
      ensures le((s + [last])[i], (s + [last])[j])
    {
      assert s[i] in s;
    }
  }

  lemma {:induction false} SortedFront<T(!new)>(s: seq<T>, le: (T, T) -> bool)
    requires Sorted(s, le) && s != []
    ensures Sorted(s[..|s| - 1], le)
  {
  }

  lemma {:induction false} InsertKeepsMembers<T>(x: T, s: seq<T>, le: (T, T) -> bool, y: T)
    ensures y in Insert(x, s, le) <==> y == x || y in s
  {
    if s != [] {
      assert s == s[..|s| - 1] + [s[|s| - 1]];
      InsertKeepsMembers(x, s[..|s| - 1], le, y);
    }
  }

  lemma {:induction false} LastIsGreatest<T(!new)>(s: seq<T>, le: (T, T) -> bool, y: T)
    requires Sorted(s, le) && y in s && le(y, y)
    ensures le(y, s[|s| - 1])
  {
    var i :| 0 <= i < |s| && s[i] == y;
  }

  lemma {:induction false} InsertSorts<T(!new)>(x: T, s: seq<T>, le: (T, T) -> bool, all: seq<T>)
    requires Preorders(le, all) && x in all && (forall y :: y in s ==> y in all)
    requires Sorted(s, le)
    ensures Sorted(Insert(x, s, le), le)
  {
    if s != [] {
      hide Sorted;
      var front, last := s[..|s| - 1], s[|s| - 1];
      assert s == front + [last] && last in s;
      if le(last, x) {
        forall y | y in s
          ensures le(y, x)
        {
          LastIsGreatest(s, le, y);
        }
        SortedSnoc(s, x, le);
      } else {
        SortedFront(s, le);
        InsertSorts(x, front, le, all);
        forall y | y in Insert(x, front, le)
          ensures le(y, last)
        {
          InsertKeepsMembers(x, front, le, y);
          if y != x {
            LastIsGreatest(s, le, y);
          }
        }
        SortedSnoc(Insert(x, front, le), last, le);
      }
    }
  }

  /** The outcome is an ascending permutation whenever the comparison is a total preorder. */
  lemma {:induction false} SortSorts<T(!new)>(s: seq<T>, le: (T, T) -> bool)
    requires Preorders(le, s)
    ensures Sorted(StableSort(s, le), le)
    ensures multiset(StableSort(s, le)) == multiset(s)
  {
    SortSortsWithin(s, le, s);
    SortPermutes(s, le);
  }

  lemma {:induction false} SortSortsWithin<T(!new)>(s: seq<T>, le: (T, T) -> bool, all: seq<T>)
    requires Preorders(le, all) && (forall y :: y in s ==> y in all)
    ensures Sorted(StableSort(s, le), le)
    ensures forall y :: y in StableSort(s, le) <==> y in s
  {
    if s != [] {
      var front, last := s[..|s| - 1], s[|s| - 1];
      assert s == front + [last];
      SortSortsWithin(front, le, all);
      InsertSorts(last, StableSort(front, le), le, all);
      forall y
        ensures y in StableSort(s, le) <==> y in s
      {
        InsertKeepsMembers(last, StableSort(front, le), le, y);
      }
    }
  }

  /** Index `k` holds a greatest element of `s`, and everything after it is strictly smaller. */
  ghost predicate LastGreatest<T(!new)>(s: seq<T>, le: (T, T) -> bool, k: int) {
    && 0 <= k < |s|
    && (forall i :: 0 <= i < |s| ==> le(s[i], s[k]))
    && (forall i :: k < i < |s| ==> !le(s[k], s[i]))
  }

  /** What `sort` followed by `pop` selects: the last of the greatest elements, in the original order. */
  lemma {:induction false} PopIsLastGreatest<T(!new)>(s: seq<T>, le: (T, T) -> bool) returns (k: int)
    requires Preorders(le, s) && s != []
    ensures LastGreatest(s, le, k)
    ensures StableSort(s, le)[|s| - 1] == s[k]
  {
    var front, last := s[..|s| - 1], s[|s| - 1];
    assert s == front + [last];
    if front == [] {
      k := 0;
      assert le(last, last);
    } else {
      k := PopIsLastGreatest(front, le);
      var sorted := StableSort(front, le);
      assert sorted[|sorted| - 1] == s[k];
      InsertLength(last, sorted, le);
      if le(s[k], last) {
        forall i | 0 <= i < |s|
          ensures le(s[i], last)
        {
          assert i < |front| ==> s[i] == front[i] && le(front[i], front[k]);
        }
        k := |s| - 1;
      } else {
        InsertLength(last, sorted[..|sorted| - 1], le);
        assert front[k] == s[k];
        forall i | 0 <= i < |s|
          ensures le(s[i], s[k])
          ensures i > k ==> !le(s[k], s[i])
        {
          assert i < |front| ==> s[i] == front[i];
        }
      }
    }
  }
}
