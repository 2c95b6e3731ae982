/**
 * Descending sort on up to three keys, the order the dashboard hands its
 * tables to the display (`sort_values(..., ascending=False)`). The source's
 * single-key sorts are not stable and its multi-key sorts are. The model
 * promises only what holds for both: the result is a permutation of the
 * input and is ordered.
 */
module Ordering {

  /** Up to three sort columns, compared lexicographically. */
  datatype SortKey = SortKey(first: real, second: real, third: real)

  /** `x` ranks no lower than `y`. */
  predicate KeyGeq(x: SortKey, y: SortKey)
  {
    x.first > y.first
    || (x.first == y.first && (x.second > y.second || (x.second == y.second && x.third >= y.third)))
  }

  lemma KeyGeqTotal(x: SortKey, y: SortKey)
    ensures KeyGeq(x, y) || KeyGeq(y, x)
  {
  }

  lemma KeyGeqTransitive(x: SortKey, y: SortKey, z: SortKey)
    requires KeyGeq(x, y) && KeyGeq(y, z)
    ensures KeyGeq(x, z)
  {
  }

  /** Every element ranks no lower than every element after it. */
  predicate SortedDesc<T>(s: seq<T>, key: T -> SortKey)
  {
    forall i, j :: 0 <= i < j < |s| ==> KeyGeq(key(s[i]), key(s[j]))
  }

  /** Inserts `x` into the descending sequence `s` before the first element it outranks. */
  function Insert<T>(x: T, s: seq<T>, key: T -> SortKey): (r: seq<T>)
    requires SortedDesc(s, key)
    ensures SortedDesc(r, key)
    ensures multiset(r) == multiset(s) + multiset{x}
    decreases |s|
  {
    if s == [] then [x]
    else if KeyGeq(key(x), key(s[0])) then
      InsertFront(x, s, key);
      [x] + s
    else
      var rest := Insert(x, s[1..], key);
      InsertBehind(x, s, rest, key);
      [s[0]] + rest
  }

  /** An element that outranks the head of a descending sequence can go in front of it. */
  lemma InsertFront<T>(x: T, s: seq<T>, key: T -> SortKey)
    requires SortedDesc(s, key) && s != [] && KeyGeq(key(x), key(s[0]))
    ensures SortedDesc([x] + s, key)
    ensures multiset([x] + s) == multiset(s) + multiset{x}
  {
    var r := [x] + s;
    forall i, j | 0 <= i < j < |r| ensures KeyGeq(key(r[i]), key(r[j])) {
      if i == 0 && j > 1 {
        KeyGeqTransitive(key(x), key(s[0]), key(s[j - 1]));
      }
    }
  }

  /** The head of a descending sequence stays in front of the others with `x` inserted among them. */
  lemma InsertBehind<T>(x: T, s: seq<T>, rest: seq<T>, key: T -> SortKey)
    requires SortedDesc(s, key) && s != [] && !KeyGeq(key(x), key(s[0]))
    requires SortedDesc(rest, key) && multiset(rest) == multiset(s[1..]) + multiset{x}
    ensures SortedDesc([s[0]] + rest, key)
    ensures multiset([s[0]] + rest) == multiset(s) + multiset{x}
  {
    KeyGeqTotal(key(x), key(s[0]));
    assert s == [s[0]] + s[1..];
    var r := [s[0]] + rest;
    forall j | 0 <= j < |rest| ensures KeyGeq(key(s[0]), key(rest[j])) {
      assert rest[j] in multiset(rest);
      if rest[j] != x {
        assert rest[j] in multiset(s[1..]);
        var k :| 0 <= k < |s[1..]| && s[1..][k] == rest[j];
        assert s[k + 1] == rest[j];
      }
    }
    forall i, j | 0 <= i < j < |r| ensures KeyGeq(key(r[i]), key(r[j])) {
      if i == 0 {
        assert r[j] == rest[j - 1];
      } else {
        assert r[i] == rest[i - 1] && r[j] == rest[j - 1];
      }
    }
  }

  /** Insertion sort into descending key order. */
  function SortDesc<T>(s: seq<T>, key: T -> SortKey): (r: seq<T>)
    ensures SortedDesc(r, key)
    ensures multiset(r) == multiset(s)
    ensures |r| == |s|
    decreases |s|
  {
    if s == [] then []
    else
      assert s == [s[0]] + s[1..];
      Insert(s[0], SortDesc(s[1..], key), key)
  }

  /** Sorting keeps exactly the elements it was given. */
  lemma SortDescMembers<T>(s: seq<T>, key: T -> SortKey)
    ensures forall x :: x in SortDesc(s, key) <==> x in s
  {
    var r := SortDesc(s, key);
    assert forall x :: x in r <==> x in multiset(r);
    assert forall x :: x in s <==> x in multiset(s);
  }

  /**
   * In a descending sequence nothing after position `k` outranks anything
   * before it: taking the first `k` rows takes the highest-ranked ones.
   */
  lemma SortedPrefix<T>(s: seq<T>, key: T -> SortKey, k: nat, x: T, y: T)
    requires SortedDesc(s, key) && k <= |s|
    requires x in s && x !in s[..k] && y in s[..k]
    ensures KeyGeq(key(y), key(x))
  {
    var i :| 0 <= i < k && s[..k][i] == y;
    var j :| 0 <= j < |s| && s[j] == x;
    assert j >= k by {
      assert forall m :: 0 <= m < k ==> s[..k][m] == s[m];
    }
  }
}
