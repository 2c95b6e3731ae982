/**
 * Sequence helpers shared by every stage of the reporting pipeline: the row
 * mask (`Filter`), the column sum (`Sum`), the distinct keys of a group-by
 * (`Distinct`), and the facts about them that the stages rely on.
 */
module Collections {

  /** The elements of `s` that satisfy `p`, in their original order. */
  function Filter<T(!new)>(s: seq<T>, p: T -> bool): (r: seq<T>)
    ensures |r| <= |s|
    ensures forall x :: x in r <==> x in s && p(x)
    decreases |s|
  {
    if s == [] then []
    else if p(s[0]) then [s[0]] + Filter(s[1..], p)
    else Filter(s[1..], p)
  }

  /** A mask takes each element at most as often as it occurs. */
  lemma {:induction false} FilterSub<T(!new)>(s: seq<T>, p: T -> bool)
    ensures multiset(Filter(s, p)) <= multiset(s)
    decreases |s|
  {
    if s != [] {
      FilterSub(s[1..], p);
      assert s == [s[0]] + s[1..];
    }
  }

  /** No two elements of `s` share a key. */
  ghost predicate DistinctBy<T, K>(s: seq<T>, key: T -> K)
  {
    forall i, j :: 0 <= i < j < |s| ==> key(s[i]) != key(s[j])
  }

  /** A mask of a sequence whose elements have pairwise different keys keeps the keys different. */
  lemma {:induction false} FilterDistinctKeys<T(!new), K>(s: seq<T>, p: T -> bool, key: T -> K)
    requires DistinctBy(s, key)
    ensures DistinctBy(Filter(s, p), key)
    decreases |s|
  {
    if s != [] {
      var tail := s[1..];
      assert DistinctBy(tail, key) by {
        forall i, j | 0 <= i < j < |tail| ensures key(tail[i]) != key(tail[j]) {
          assert tail[i] == s[i + 1] && tail[j] == s[j + 1];
        }
      }
      FilterDistinctKeys(tail, p, key);
      var rest := Filter(tail, p);
      if p(s[0]) {
        var r := [s[0]] + rest;
        forall i, j | 0 <= i < j < |r| ensures key(r[i]) != key(r[j]) {
          assert r[j] == rest[j - 1] && rest[j - 1] in rest;
          if i == 0 {
            var k :| 0 <= k < |tail| && tail[k] == rest[j - 1];
            assert s[k + 1] == r[j];
          } else {
            assert r[i] == rest[i - 1];
          }
        }
        assert Filter(s, p) == r;
      } else {
        assert Filter(s, p) == rest;
      }
    }
  }

  /** Two masks that no element satisfies together take no element twice over. */
  lemma {:induction false} FilterDisjoint<T(!new)>(s: seq<T>, p: T -> bool, q: T -> bool)
    requires forall x :: !(p(x) && q(x))
    ensures multiset(Filter(s, p)) + multiset(Filter(s, q)) <= multiset(s)
    decreases |s|
  {
    if s != [] {
      FilterDisjoint(s[1..], p, q);
      assert s == [s[0]] + s[1..];
    }
  }

  /** Masking a concatenation masks each part. */
  lemma {:induction false} FilterConcat<T(!new)>(a: seq<T>, b: seq<T>, p: T -> bool)
    ensures Filter(a + b, p) == Filter(a, p) + Filter(b, p)
    decreases |a|
  {
    if a == [] {
      assert a + b == b;
    } else {
      assert (a + b)[0] == a[0];
      assert (a + b)[1..] == a[1..] + b;
      FilterConcat(a[1..], b, p);
    }
  }

  /** Masking twice is masking once with the conjunction. */
  lemma {:induction false} FilterFilter<T(!new)>(s: seq<T>, p: T -> bool, q: T -> bool, both: T -> bool)
    requires forall x :: both(x) == (p(x) && q(x))
    ensures Filter(Filter(s, p), q) == Filter(s, both)
    decreases |s|
  {
    if s != [] {
      FilterFilter(s[1..], p, q, both);
      if p(s[0]) {
        var rest := Filter(s[1..], p);
        assert ([s[0]] + rest)[0] == s[0];
        assert ([s[0]] + rest)[1..] == rest;
      }
    }
  }

  /** A mask that no element satisfies leaves nothing. */
  lemma FilterEmpty<T(!new)>(s: seq<T>, p: T -> bool)
    requires forall x :: x in s ==> !p(x)
    ensures Filter(s, p) == []
  {
    var r := Filter(s, p);
    assert forall i :: 0 <= i < |r| ==> r[i] in r;
  }

  /** The sum of `f` over the elements of `s` (a column sum). */
  function Sum<T>(s: seq<T>, f: T -> int): int
    decreases |s|
  {
    if s == [] then 0 else f(s[0]) + Sum(s[1..], f)
  }

  /**
   * Partition identity for sums: when `p` holds exactly where one of the two
   * disjoint masks `q1`, `q2` holds, the masked sum splits into the two parts.
   */
  lemma {:induction false} SumSplit<T(!new)>(s: seq<T>, f: T -> int, p: T -> bool, q1: T -> bool, q2: T -> bool)
    requires forall x :: p(x) == (q1(x) || q2(x))
    requires forall x :: !(q1(x) && q2(x))
    ensures Sum(Filter(s, p), f) == Sum(Filter(s, q1), f) + Sum(Filter(s, q2), f)
    decreases |s|
  {
    if s != [] {
      SumSplit(s[1..], f, p, q1, q2);
      var x := s[0];
      if p(x) {
        var rest := Filter(s[1..], p);
        assert ([x] + rest)[0] == x && ([x] + rest)[1..] == rest;
      }
      if q1(x) {
        var rest := Filter(s[1..], q1);
        assert ([x] + rest)[0] == x && ([x] + rest)[1..] == rest;
      }
      if q2(x) {
        var rest := Filter(s[1..], q2);
        assert ([x] + rest)[0] == x && ([x] + rest)[1..] == rest;
      }
    }
  }

  /** Partition identity for counts: the rows with and without `p` make up `s`. */
  lemma {:induction false} CountSplit<T(!new)>(s: seq<T>, p: T -> bool, q: T -> bool)
    requires forall x :: q(x) == !p(x)
    ensures |Filter(s, p)| + |Filter(s, q)| == |s|
    decreases |s|
  {
    if s != [] {
      CountSplit(s[1..], p, q);
    }
  }

  /** The sum of a sequence of integers. */
  function Total(xs: seq<int>): int
    decreases |xs|
  {
    if xs == [] then 0 else xs[0] + Total(xs[1..])
  }

  lemma {:induction false} TotalSnoc(xs: seq<int>, x: int)
    ensures Total(xs + [x]) == Total(xs) + x
    decreases |xs|
  {
    if xs == [] {
      assert xs + [x] == [x];
    } else {
      assert (xs + [x])[0] == xs[0];
      assert (xs + [x])[1..] == xs[1..] + [x];
      TotalSnoc(xs[1..], x);
    }
  }

  predicate NoDuplicates<T(==)>(s: seq<T>)
  {
    forall i, j :: 0 <= i < j < |s| ==> s[i] != s[j]
  }

  /** The distinct values of `s` in order of first appearance (the keys of a group-by). */
  function Distinct<T(==,!new)>(s: seq<T>): (r: seq<T>)
    ensures NoDuplicates(r)
    ensures forall x :: x in r <==> x in s
    decreases |s|
  {
    if s == [] then []
    else
      var init, last := s[..|s| - 1], s[|s| - 1];
      assert s == init + [last];
      var rest := Distinct(init);
      if last in rest then rest else rest + [last]
  }

  /** A sequence without repeats has as many distinct values as elements. */
  lemma {:induction false} DistinctCount<T>(s: seq<T>)
    requires NoDuplicates(s)
    ensures |(set x | x in s)| == |s|
    decreases |s|
  {
    if s != [] {
      var t := s[1..];
      assert NoDuplicates(t) by {
        forall i, j | 0 <= i < j < |t| ensures t[i] != t[j] {
          assert t[i] == s[i + 1] && t[j] == s[j + 1];
        }
      }
      DistinctCount(t);
      assert s[0] !in t by {
        forall k | 0 <= k < |t| ensures t[k] != s[0] {
          assert t[k] == s[k + 1];
        }
      }
      assert (set x | x in s) == (set x | x in t) + {s[0]} by {
        assert s == [s[0]] + t;
      }
    }
  }

  /** The column `f` of the rows `s`. */
  function Project<T, U>(s: seq<T>, f: T -> U): (r: seq<U>)
    ensures |r| == |s|
    ensures forall i :: 0 <= i < |s| ==> r[i] == f(s[i])
  {
    seq(|s|, i requires 0 <= i < |s| => f(s[i]))
  }

  /** A value occurs in a projected column exactly when some row carries it. */
  lemma ProjectMember<T, U>(s: seq<T>, f: T -> U, y: U)
    ensures y in Project(s, f) <==> exists x :: x in s && f(x) == y
  {
    var r := Project(s, f);
    if y in r {
      var i :| 0 <= i < |r| && r[i] == y;
      assert s[i] in s;
    }
    if exists x :: x in s && f(x) == y {
      var x :| x in s && f(x) == y;
      var i :| 0 <= i < |s| && s[i] == x;
      assert r[i] == y;
    }
  }

  function Min(a: int, b: int): int
  {
    if a <= b then a else b
  }
}
