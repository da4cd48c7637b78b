/** Stable ordering of records by a two-part key (a position, then an
    identity), the ordering that both the database scope `order(:position, :id)`
    and the admin list's comparator produce. */
module Sorting {

  datatype SortKey = SortKey(major: int, minor: int)

  /** Lexicographic order on keys: major first, minor to break ties. */
  predicate KeyLe(a: SortKey, b: SortKey) {
    a.major < b.major || (a.major == b.major && a.minor <= b.minor)
  }

  ghost predicate SortedBy<T>(s: seq<T>, key: T -> SortKey) {
    forall i, j :: 0 <= i < j < |s| ==> KeyLe(key(s[i]), key(s[j]))
  }

  /** Places `x` in front of the first element whose key is not smaller,
      so that it stays ahead of the elements it ties with. */
  function Insert<T>(x: T, s: seq<T>, key: T -> SortKey): (r: seq<T>)
    requires SortedBy(s, key)
    ensures multiset(r) == multiset(s) + multiset{x}
    ensures SortedBy(r, key)
    decreases |s|
  {
    if |s| == 0 then [x]
    else if KeyLe(key(x), key(s[0])) then [x] + s
    else
      var rest := Insert(x, s[1..], key);
      InsertHeadProof(x, s, rest, key);
      [s[0]] + rest
  }

  lemma InsertHeadProof<T>(x: T, s: seq<T>, rest: seq<T>, key: T -> SortKey)
    requires |s| > 0 && SortedBy(s, key) && !KeyLe(key(x), key(s[0]))
    requires SortedBy(rest, key) && multiset(rest) == multiset(s[1..]) + multiset{x}
    ensures SortedBy([s[0]] + rest, key)
    ensures multiset([s[0]] + rest) == multiset(s) + multiset{x}
  {
    assert s == [s[0]] + s[1..];
    forall k | 0 <= k < |rest|
      ensures KeyLe(key(s[0]), key(rest[k]))
    {
      assert rest[k] in multiset(rest);
      if rest[k] != x {
        assert rest[k] in multiset(s[1..]);
        var m :| 0 <= m < |s[1..]| && s[1..][m] == rest[k];
        assert s[m + 1] == rest[k];
      }
    }
    var r := [s[0]] + rest;
    forall i, j | 0 <= i < j < |r|
      ensures KeyLe(key(r[i]), key(r[j]))
    {
      if i > 0 {
        assert r[i] == rest[i - 1] && r[j] == rest[j - 1];
      } else {
        assert r[j] == rest[j - 1];
      }
    }
  }

  /** Stable insertion sort: a sorted permutation of `s`. */
  function SortBy<T>(s: seq<T>, key: T -> SortKey): (r: seq<T>)
    ensures multiset(r) == multiset(s)
    ensures |r| == |s|
    ensures SortedBy(r, key)
    decreases |s|
  {
    if |s| == 0 then []
    else
      assert s == [s[0]] + s[1..];
      Insert(s[0], SortBy(s[1..], key), key)
  }

  /** Sorting a list that is already in order changes nothing (the sort is stable). */
  lemma {:induction false} SortBySortedIsIdentity<T>(s: seq<T>, key: T -> SortKey)
    requires SortedBy(s, key)
    ensures SortBy(s, key) == s
    decreases |s|
  {
    if |s| > 0 {
      SortBySortedIsIdentity(s[1..], key);
      assert SortBy(s[1..], key) == s[1..];
      if |s| > 1 {
        assert KeyLe(key(s[0]), key(s[1]));
      }
    }
  }

  lemma SortedTail<T>(s: seq<T>, key: T -> SortKey)
    requires |s| > 0 && SortedBy(s, key)
    ensures SortedBy(s[1..], key)
  {
    forall i, j | 0 <= i < j < |s| - 1
      ensures KeyLe(key(s[1..][i]), key(s[1..][j]))
    {
      assert s[1..][i] == s[i + 1] && s[1..][j] == s[j + 1];
    }
  }

  /** The head of a sorted sequence has a key no larger than any element's. */
  lemma SortedHeadIsLeast<T>(s: seq<T>, x: T, key: T -> SortKey)
    requires SortedBy(s, key) && x in multiset(s)
    ensures KeyLe(key(s[0]), key(x))
  {
    var i :| 0 <= i < |s| && s[i] == x;
    if i > 0 {
      assert KeyLe(key(s[0]), key(s[i]));
    }
  }

  /** When no two elements share a key, there is only one sorted arrangement
      of them: any sorted permutation is the one `SortBy` returns. */
  lemma {:induction false} SortedPermutationUnique<T>(s: seq<T>, t: seq<T>, key: T -> SortKey)
    requires multiset(s) == multiset(t)
    requires SortedBy(s, key) && SortedBy(t, key)
    requires forall x, y :: x in s && y in s && key(x) == key(y) ==> x == y
    ensures s == t
    decreases |s|
  {
    if |s| > 0 {
      assert |t| == |s| by {
        assert |multiset(s)| == |s| && |multiset(t)| == |t|;
      }
      assert s[0] in multiset(t);
      assert t[0] in multiset(s);
      SortedHeadIsLeast(t, s[0], key);
      SortedHeadIsLeast(s, t[0], key);
      assert key(s[0]) == key(t[0]);
      assert s[0] == t[0] by {
        assert t[0] in s;
      }
      assert s == [s[0]] + s[1..];
      assert t == [t[0]] + t[1..];
      assert multiset(s[1..]) == multiset(s) - multiset{s[0]};
      assert multiset(t[1..]) == multiset(t) - multiset{t[0]};
      SortedTail(s, key);
      SortedTail(t, key);
      forall x, y | x in s[1..] && y in s[1..] && key(x) == key(y)
        ensures x == y
      {
        assert x in s && y in s;
      }
      SortedPermutationUnique(s[1..], t[1..], key);
    }
  }
}
