/** A stable sort by an integer key: the meaning of `Array.prototype.sort` with a numeric comparator. */
module Sorting {

  ghost predicate SortedBy<T>(s: seq<T>, key: T -> int) {
    forall i, j :: 0 <= i < j < |s| ==> key(s[i]) <= key(s[j])
  }

  // Puts x after every element whose key is not larger, so equal keys keep their order.
  function Insert<T>(s: seq<T>, x: T, key: T -> int): (r: seq<T>)
    ensures multiset(r) == multiset(s) + multiset{x}
    ensures |r| == |s| + 1
  {
    if s == [] then [x]
    else if key(s[|s| - 1]) <= key(x) then s + [x]
    else
      assert s == s[..|s| - 1] + [s[|s| - 1]];
      Insert(s[..|s| - 1], x, key) + [s[|s| - 1]]
  }

  function SortBy<T>(s: seq<T>, key: T -> int): (r: seq<T>)
    ensures multiset(r) == multiset(s)
    ensures |r| == |s|
  {
    if s == [] then []
    else
      assert s == s[..|s| - 1] + [s[|s| - 1]];
      Insert(SortBy(s[..|s| - 1], key), s[|s| - 1], key)
  }

  lemma SameMembers<T>(s: seq<T>, key: T -> int, x: T)
    ensures x in SortBy(s, key) <==> x in s
  {
    assert x in SortBy(s, key) <==> x in multiset(SortBy(s, key));
  }

  // An element and what stands around it.
  lemma Around<T>(s: seq<T>, x: T) returns (before: seq<T>, after: seq<T>)
    requires x in s
    ensures s == before + [x] + after
  {
    var i :| 0 <= i < |s| && s[i] == x;
    before, after := s[..i], s[i + 1..];
  }

  lemma {:induction false} InsertSorted<T>(s: seq<T>, x: T, key: T -> int)
    requires SortedBy(s, key)
    ensures SortedBy(Insert(s, x, key), key)
  {
    if s != [] && key(s[|s| - 1]) > key(x) {
      var init, last := s[..|s| - 1], s[|s| - 1];
      InsertSorted(init, x, key);
      var r := Insert(init, x, key);
      forall k | 0 <= k < |r| ensures key(r[k]) <= key(last) {
        assert r[k] in multiset(r);
        assert r[k] in multiset(init) + multiset{x};
        if r[k] != x {
          assert r[k] in init;
        }
      }
    }
  }

  lemma {:induction false} SortBySorted<T>(s: seq<T>, key: T -> int)
    ensures SortedBy(SortBy(s, key), key)
  {
    if s != [] {
      SortBySorted(s[..|s| - 1], key);
      InsertSorted(SortBy(s[..|s| - 1], key), s[|s| - 1], key);
    }
  }

  lemma {:induction false} SortedUnchanged<T>(s: seq<T>, key: T -> int)
    requires SortedBy(s, key)
    ensures SortBy(s, key) == s
  {
    if s != [] {
      var init, last := s[..|s| - 1], s[|s| - 1];
      SortedUnchanged(init, key);
      assert s == init + [last];
      assert init != [] ==> init[|init| - 1] == s[|s| - 2];
      assert Insert(init, last, key) == init + [last];
    }
  }

  lemma SortPair<T>(a: T, b: T, key: T -> int)
    requires key(a) < key(b)
    ensures SortBy([a, b], key) == [a, b] && SortBy([b, a], key) == [a, b]
  {
    SortOne(a, key);
    SortOne(b, key);
    assert [a, b][..1] == [a] && [b, a][..1] == [b];
    assert Insert([b], a, key) == Insert([], a, key) + [b];
  }

  lemma SortOne<T>(a: T, key: T -> int)
    ensures SortBy([a], key) == [a]
  {
    assert [a][..0] == [];
  }
}
