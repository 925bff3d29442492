/** Stock types and the order-preserving filter that several services rely on. */
module Prelude {

  datatype Option<+T> = None | Some(value: T)

  datatype Result<+T> = Ok(value: T) | Err(error: string)

  /** The elements of `s` that satisfy `keep`, in their original order. */
  function Filter<T(!new)>(s: seq<T>, keep: T -> bool): (r: seq<T>)
    ensures |r| <= |s|
    ensures forall x :: x in r <==> x in s && keep(x)
  {
    if s == [] then []
    else
      var front := Filter(s[..|s| - 1], keep);
      var last := s[|s| - 1];
      if keep(last) then front + [last] else front
  }

  ghost predicate NoDuplicates<T(!new)>(s: seq<T>) {
    forall i, j :: 0 <= i < j < |s| ==> s[i] != s[j]
  }

  lemma {:induction false} DisjointAppend<T(!new)>(a: seq<T>, b: seq<T>)
    requires NoDuplicates(a) && NoDuplicates(b)
    requires forall x :: x in a ==> x !in b
    ensures NoDuplicates(a + b)
  {
    forall i, j | 0 <= i < j < |a + b|
      ensures (a + b)[i] != (a + b)[j]
    {
      if i < |a| <= j {
        assert a[i] in a && b[j - |a|] in b;
      }
    }
  }

  lemma {:induction false} FilterSnoc<T(!new)>(s: seq<T>, x: T, keep: T -> bool)
    ensures Filter(s + [x], keep) == Filter(s, keep) + if keep(x) then [x] else []
  {
    assert (s + [x])[..|s|] == s;
  }

  lemma {:induction false} FilterAppendNone<T(!new)>(a: seq<T>, keep: T -> bool)
    ensures Filter(a + [], keep) == Filter(a, keep) + Filter([], keep)
  {
    assert a + [] == a;
    assert Filter([], keep) == [];
  }

  lemma {:induction false} FilterAppendOne<T(!new)>(a: seq<T>, front: seq<T>, last: T, keep: T -> bool)
    requires Filter(a + front, keep) == Filter(a, keep) + Filter(front, keep)
    ensures Filter(a + (front + [last]), keep) == Filter(a, keep) + Filter(front + [last], keep)
  {
    FilterSnoc(a + front, last, keep);
    FilterSnoc(front, last, keep);
    hide Filter;
    assert a + (front + [last]) == (a + front) + [last];
  }

  lemma {:induction false} FilterAppend<T(!new)>(a: seq<T>, b: seq<T>, keep: T -> bool)
    ensures Filter(a + b, keep) == Filter(a, keep) + Filter(b, keep)
  {
    hide Filter;
    if b == [] {
      FilterAppendNone(a, keep);
    } else {
      FilterAppend(a, b[..|b| - 1], keep);
      FilterAppendOne(a, b[..|b| - 1], b[|b| - 1], keep);
      assert b == b[..|b| - 1] + [b[|b| - 1]];
    }
  }

  /** How many elements pass the test. */
  function Kept<T>(s: seq<T>, keep: T -> bool): nat {
    if s == [] then 0 else Kept(s[..|s| - 1], keep) + if keep(s[|s| - 1]) then 1 else 0
  }

  lemma {:induction false} FilterLength<T(!new)>(s: seq<T>, keep: T -> bool)
    ensures |Filter(s, keep)| == Kept(s, keep)
  {
    if s != [] {
      FilterLength(s[..|s| - 1], keep);
    }
  }

  /** The i-th kept element is the one that passes the test with `i` before it. */
  lemma {:induction false} FilterAt<T(!new)>(s: seq<T>, keep: T -> bool, i: nat) returns (k: nat)
    requires i < |Filter(s, keep)|
    ensures k < |s| && keep(s[k]) && Kept(s[..k], keep) == i && Filter(s, keep)[i] == s[k]
  {
    var front := s[..|s| - 1];
    FilterLength(front, keep);
    if i < |Filter(front, keep)| {
      k := FilterAt(front, keep, i);
      assert s[..k] == front[..k];
    } else {
      k := |s| - 1;
    }
  }

  /** Two kept elements come in the order in which they stood. */
  lemma {:induction false} FilterKeepsOrder<T(!new)>(s: seq<T>, keep: T -> bool, i: nat, j: nat)
    returns (x: nat, y: nat)
    requires i < j < |Filter(s, keep)|
    ensures x < y < |s| && s[x] == Filter(s, keep)[i] && s[y] == Filter(s, keep)[j]
  {
    var front := Filter(s[..|s| - 1], keep);
    if j < |front| {
      x, y := FilterKeepsOrder(s[..|s| - 1], keep, i, j);
    } else {
      assert front[i] in s[..|s| - 1];
      x :| x < |s| - 1 && s[x] == front[i];
      y := |s| - 1;
    }
  }

  /** A stronger test keeps fewer elements, strictly fewer when it drops one the weaker test keeps. */
  lemma {:induction false} FilterShrinks<T(!new)>(s: seq<T>, strong: T -> bool, weak: T -> bool)
    requires forall x :: x in s && strong(x) ==> weak(x)
    ensures |Filter(s, strong)| <= |Filter(s, weak)|
    ensures (exists x :: x in s && weak(x) && !strong(x)) ==> |Filter(s, strong)| < |Filter(s, weak)|
  {
    if s != [] {
      FilterShrinks(s[..|s| - 1], strong, weak);
      assert s == s[..|s| - 1] + [s[|s| - 1]];
    }
  }

  /** The sequences of `ss` end to end. */
  function Concat<T>(ss: seq<seq<T>>): seq<T> {
    if ss == [] then [] else Concat(ss[..|ss| - 1]) + ss[|ss| - 1]
  }

  lemma {:induction false} ConcatSnoc<T>(ss: seq<seq<T>>, s: seq<T>)
    ensures Concat(ss + [s]) == Concat(ss) + s
  {
    assert (ss + [s])[..|ss|] == ss;
  }

  lemma {:induction false} OneMoreTimes(a: int, k: nat)
    ensures (a + 1) * k == a * k + k
  {
  }

  lemma {:induction false} TimesGrow(a: int, b: int, k: nat)
    requires a <= b
    ensures a * k <= b * k
  {
    assert (b - a) * k >= 0;
  }

  lemma {:induction false} ProductsGrow(a: int, b: int, k: nat)
    ensures a <= b ==> a * k <= b * k
    ensures a < b ==> a * k + k <= b * k
    ensures (a + 1) * k == a * k + k
  {
    OneMoreTimes(a, k);
    if a < b {
      TimesGrow(a, b, k);
      TimesGrow(a + 1, b, k);
    }
  }
}
