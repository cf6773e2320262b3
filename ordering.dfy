/**
  LINQ OrderBy / OrderByDescending: a stable sort on an integer key.
  Descending order is the primitive; ascending order sorts on the negated key.
*/
module Ordering {
  import opened Util

  ghost predicate SortedDesc<T>(s: seq<T>, key: T -> int)
  {
    forall i, j :: 0 <= i < j < |s| ==> key(s[i]) >= key(s[j])
  }

  function KeyIs<T>(key: T -> int, k: int): T -> bool
  {
    (x: T) => key(x) == k
  }

  /** Places x in front of the first element whose key is not greater than its own. */
  function InsertDesc<T>(x: T, s: seq<T>, key: T -> int): (r: seq<T>)
    ensures |r| == |s| + 1
    ensures multiset(r) == multiset(s) + multiset{x}
  {
    if |s| == 0 || key(x) >= key(s[0]) then
      [x] + s
    else
      assert s == [s[0]] + s[1..];
      [s[0]] + InsertDesc(x, s[1..], key)
  }

  lemma {:induction false} InsertDescSorted<T>(x: T, s: seq<T>, key: T -> int)
    requires SortedDesc(s, key)
    ensures SortedDesc(InsertDesc(x, s, key), key)
  {
    if |s| == 0 || key(x) >= key(s[0]) {
      forall i | 0 <= i < |s| ensures key(s[i]) <= key(x) {
        if i > 0 {
          assert key(s[0]) >= key(s[i]);
        }
      }
      ConsSortedDesc(x, s, key);
    } else {
      var tail := s[1..];
      var rest := InsertDesc(x, tail, key);
      InsertDescSorted(x, tail, key);
      assert SortedDesc(tail, key) by {
        forall i, j | 0 <= i < j < |tail| ensures key(tail[i]) >= key(tail[j]) {
          assert tail[i] == s[i + 1] && tail[j] == s[j + 1];
        }
      }
      forall k | 0 <= k < |rest| ensures key(rest[k]) <= key(s[0]) {
        var y := rest[k];
        assert y in multiset(rest);
        if y != x {
          assert y in multiset(tail);
          var m :| 0 <= m < |tail| && tail[m] == y;
          assert s[m + 1] == y;
        }
      }
      ConsSortedDesc(s[0], rest, key);
    }
  }

  /** OrderByDescending(key): the same elements, largest key first, ties in their original order. */
  function SortDesc<T>(s: seq<T>, key: T -> int): (r: seq<T>)
    ensures |r| == |s|
    ensures multiset(r) == multiset(s)
    ensures SortedDesc(r, key)
  {
    if |s| == 0 then []
    else
      assert s == [s[0]] + s[1..];
      var rest := SortDesc(s[1..], key);
      InsertDescSorted(s[0], rest, key);
      InsertDesc(s[0], rest, key)
  }

  lemma {:induction false} InsertDescStable<T>(x: T, s: seq<T>, key: T -> int, k: int)
    ensures Filter(InsertDesc(x, s, key), KeyIs(key, k)) ==
      (if key(x) == k then [x] else []) + Filter(s, KeyIs(key, k))
  {
    if |s| == 0 || key(x) >= key(s[0]) {
      assert ([x] + s)[1..] == s;
    } else {
      var p, tail := KeyIs(key, k), s[1..];
      var rest := InsertDesc(x, tail, key);
      InsertDescStable(x, tail, key, k);
      assert ([s[0]] + rest)[1..] == rest;
      assert Filter(InsertDesc(x, s, key), p) == (if p(s[0]) then [s[0]] else []) + Filter(rest, p);
      assert Filter(s, p) == (if p(s[0]) then [s[0]] else []) + Filter(tail, p);
      if key(x) == k {
        assert !p(s[0]);
        assert [] + Filter(rest, p) == Filter(rest, p);
        assert [] + Filter(tail, p) == Filter(tail, p);
      } else {
        assert [] + Filter(tail, p) == Filter(tail, p);
      }
    }
  }

  /** Filtering a list sorted by a key (LINQ Where after OrderByDescending) keeps it sorted. */
  lemma {:induction false} FilterKeepsSortedDesc<T>(s: seq<T>, p: T -> bool, key: T -> int)
    requires SortedDesc(s, key)
    ensures SortedDesc(Filter(s, p), key)
  {
    if |s| > 0 {
      var tail := s[1..];
      assert SortedDesc(tail, key) by {
        forall i, j | 0 <= i < j < |tail| ensures key(tail[i]) >= key(tail[j]) {
          assert tail[i] == s[i + 1] && tail[j] == s[j + 1];
        }
      }
      FilterKeepsSortedDesc(tail, p, key);
      var rest := Filter(tail, p);
      if p(s[0]) {
        assert Filter(s, p) == [s[0]] + rest;
        assert forall m :: 0 <= m < |tail| ==> key(tail[m]) <= key(s[0]) by {
          forall m | 0 <= m < |tail| ensures key(tail[m]) <= key(s[0]) {
            assert tail[m] == s[m + 1];
          }
        }
        FilterBelow(tail, p, key, key(s[0]));
        ConsSortedDesc(s[0], rest, key);
      } else {
        assert Filter(s, p) == rest;
      }
    }
  }

  /** Filtering keeps a bound every element's key stays under. */
  lemma FilterBelow<T>(s: seq<T>, p: T -> bool, key: T -> int, k: int)
    requires forall m :: 0 <= m < |s| ==> key(s[m]) <= k
    ensures forall i :: 0 <= i < |Filter(s, p)| ==> key(Filter(s, p)[i]) <= k
  {
    var r := Filter(s, p);
    forall i | 0 <= i < |r| ensures key(r[i]) <= k {
      var m :| 0 <= m < |s| && s[m] == r[i];
    }
  }

  /** A sorted list stays sorted under a head whose key is at least every key in it. */
  lemma ConsSortedDesc<T>(x: T, s: seq<T>, key: T -> int)
    requires SortedDesc(s, key)
    requires forall i :: 0 <= i < |s| ==> key(s[i]) <= key(x)
    ensures SortedDesc([x] + s, key)
  {
    var r := [x] + s;
    forall i, j | 0 <= i < j < |r| ensures key(r[i]) >= key(r[j]) {
      assert r[j] == s[j - 1];
      if i > 0 {
        assert r[i] == s[i - 1];
      }
    }
  }

  /** Stability: the elements sharing any one key keep their original relative order. */
  lemma {:induction false} SortDescStable<T>(s: seq<T>, key: T -> int, k: int)
    ensures Filter(SortDesc(s, key), KeyIs(key, k)) == Filter(s, KeyIs(key, k))
  {
    if |s| > 0 {
      SortDescStable(s[1..], key, k);
      InsertDescStable(s[0], SortDesc(s[1..], key), key, k);
    }
  }

  function Negated<T>(key: T -> int): T -> int
  {
    (x: T) => -key(x)
  }

  /** OrderBy(key): the same elements, smallest key first. */
  function SortAsc<T>(s: seq<T>, key: T -> int): (r: seq<T>)
    ensures |r| == |s|
    ensures multiset(r) == multiset(s)
    ensures forall i, j :: 0 <= i < j < |r| ==> key(r[i]) <= key(r[j])
  {
    var r := SortDesc(s, Negated(key));
    assert forall i, j :: 0 <= i < j < |r| ==> Negated(key)(r[i]) >= Negated(key)(r[j]);
    r
  }
}
