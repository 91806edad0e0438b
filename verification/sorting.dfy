/** The stable sort of `Array.prototype.sort` with a numeric comparator
    `(a, b) => key(a) - key(b)`, as an insertion sort on sequences. An element
    is inserted after every element whose key does not exceed its own, so
    elements with equal keys keep their original order. */
module Sorting {
  import Crud

  ghost predicate SortedBy<T>(s: seq<T>, key: T -> int) {
    forall i, j :: 0 <= i < j < |s| ==> key(s[i]) <= key(s[j])
  }

  function Insert<T>(x: T, s: seq<T>, key: T -> int): (r: seq<T>)
    requires SortedBy(s, key)
    ensures |r| == |s| + 1
    ensures multiset(r) == multiset(s) + multiset{x}
    ensures forall i :: 0 <= i < |r| ==> r[i] == x || r[i] in s
    ensures SortedBy(r, key)
    decreases |s|
  {
    if |s| == 0 then [x]
    else if key(s[|s| - 1]) <= key(x) then s + [x]
    else
      var front := s[..|s| - 1];
      var last := s[|s| - 1];
      assert s == front + [last];
      var r := Insert(x, front, key);
      SnocAbove(r, front, x, last, key);
      r + [last]
  }

  /** An element whose key bounds those of a sorted sequence's sources may be
      appended to it. */
  lemma SnocAbove<T>(r: seq<T>, front: seq<T>, x: T, last: T, key: T -> int)
    requires SortedBy(r, key) && SortedBy(front + [last], key)
    requires forall i :: 0 <= i < |r| ==> r[i] == x || r[i] in front
    requires key(x) <= key(last)
    ensures SortedBy(r + [last], key)
  {
    var s := front + [last];
    forall i | 0 <= i < |r| ensures key(r[i]) <= key(last) {
      if r[i] != x {
        var j :| 0 <= j < |front| && front[j] == r[i];
        assert s[j] == front[j] && s[|front|] == last;
      }
    }
  }

  function SortBy<T>(s: seq<T>, key: T -> int): (r: seq<T>)
    ensures |r| == |s|
    ensures multiset(r) == multiset(s)
    ensures SortedBy(r, key)
    decreases |s|
  {
    if |s| == 0 then []
    else
      var front := s[..|s| - 1];
      assert s == front + [s[|s| - 1]];
      Insert(s[|s| - 1], SortBy(front, key), key)
  }

  /** A sorted sequence stays sorted when a prefix is taken, and the prefix's
      keys bound those of everything after it. */
  lemma SortedPrefix<T>(s: seq<T>, key: T -> int, n: nat)
    requires SortedBy(s, key)
    requires n <= |s|
    ensures SortedBy(s[..n], key)
    ensures forall i, j :: 0 <= i < n <= j < |s| ==> key(s[i]) <= key(s[j])
  {
  }

  /** Everything after a sorted sequence's first `n` elements has a key no
      smaller than the `n`-th. */
  lemma SortedRest<T>(s: seq<T>, key: T -> int, n: nat)
    requires SortedBy(s, key)
    requires 0 < n <= |s|
    ensures forall x :: x in multiset(s[n..]) ==> key(s[n - 1]) <= key(x)
  {
    forall x | x in multiset(s[n..]) ensures key(s[n - 1]) <= key(x) {
      assert x in s[n..];
      var j :| 0 <= j < |s[n..]| && s[n..][j] == x;
      assert s[n + j] == x;
    }
  }

  /** The first `n` elements of a permutation of `t` are drawn from `t`, and
      what they leave of `t` is the rest of the permutation. */
  lemma PermutationPrefix<T>(s: seq<T>, t: seq<T>, n: nat)
    requires multiset(s) == multiset(t)
    requires n <= |s|
    ensures multiset(s[..n]) <= multiset(t)
    ensures multiset(t) - multiset(s[..n]) == multiset(s[n..])
    ensures forall i :: 0 <= i < n ==> s[i] in t
    ensures n == |s| ==> multiset(s[..n]) == multiset(t)
  {
    assert s == s[..n] + s[n..];
    assert multiset(s) == multiset(s[..n]) + multiset(s[n..]);
    forall i | 0 <= i < n ensures s[i] in t {
      assert s[i] in multiset(s);
    }
  }

  /** Sorting what is already in order is the identity. */
  lemma {:induction false} SortBySorted<T>(s: seq<T>, key: T -> int)
    requires SortedBy(s, key)
    ensures SortBy(s, key) == s
    decreases |s|
  {
    if |s| > 0 {
      var front := s[..|s| - 1];
      var x := s[|s| - 1];
      assert SortedBy(front, key) by {
        forall i, j | 0 <= i < j < |front| ensures key(front[i]) <= key(front[j]) {
          assert front[i] == s[i] && front[j] == s[j];
        }
      }
      SortBySorted(front, key);
      assert SortBy(s, key) == Insert(x, front, key);
      if |front| > 0 {
        assert key(front[|front| - 1]) <= key(x);
      }
      assert s == front + [x];
    }
  }

  /** The elements whose key is `k`. */
  function KeyIs<T>(key: T -> int, k: int): T -> bool {
    (x: T) => key(x) == k
  }

  /** Inserting `x` into a sorted sequence puts it after every element with
      its key: the elements with any one key are those before, then `x` if it
      has that key. */
  lemma {:induction false} InsertKeepsTies<T>(x: T, s: seq<T>, key: T -> int, k: int)
    requires SortedBy(s, key)
    ensures Crud.Filter(Insert(x, s, key), KeyIs(key, k)) ==
            Crud.Filter(s, KeyIs(key, k)) + (if key(x) == k then [x] else [])
    decreases |s|
  {
    if |s| == 0 {
      Crud.FilterSingle(x, KeyIs(key, k));
    } else if key(s[|s| - 1]) <= key(x) {
      InsertTiesAtEnd(x, s, key, k);
    } else {
      var front := s[..|s| - 1];
      var last := s[|s| - 1];
      assert s == front + [last];
      SortedPrefix(s, key, |s| - 1);
      InsertKeepsTies(x, front, key, k);
      InsertTiesStep(x, front, last, key, k);
    }
  }

  /** The case of `InsertKeepsTies` where `x` goes at the end. */
  lemma InsertTiesAtEnd<T>(x: T, s: seq<T>, key: T -> int, k: int)
    requires SortedBy(s, key) && |s| > 0 && key(s[|s| - 1]) <= key(x)
    ensures Crud.Filter(Insert(x, s, key), KeyIs(key, k)) ==
            Crud.Filter(s, KeyIs(key, k)) + (if key(x) == k then [x] else [])
  {
    assert Insert(x, s, key) == s + [x];
    Crud.FilterConcat(s, [x], KeyIs(key, k));
    Crud.FilterSingle(x, KeyIs(key, k));
  }

  /** The step of `InsertKeepsTies` where `x` passes the last element: that
      element's key is larger, so at most one of the two has key `k`. */
  lemma InsertTiesStep<T>(x: T, front: seq<T>, last: T, key: T -> int, k: int)
    requires SortedBy(front + [last], key) && SortedBy(front, key)
    requires key(x) < key(last)
    requires Crud.Filter(Insert(x, front, key), KeyIs(key, k)) ==
             Crud.Filter(front, KeyIs(key, k)) + (if key(x) == k then [x] else [])
    ensures Crud.Filter(Insert(x, front + [last], key), KeyIs(key, k)) ==
            Crud.Filter(front + [last], KeyIs(key, k)) + (if key(x) == k then [x] else [])
  {
    var keep := KeyIs(key, k);
    var s := front + [last];
    assert s[..|s| - 1] == front && s[|s| - 1] == last;
    var r := Insert(x, front, key);
    assert Insert(x, s, key) == r + [last];
    var a := Crud.Filter(front, keep);
    var xs: seq<T> := if key(x) == k then [x] else [];
    var ls := Crud.Filter([last], keep);
    Crud.FilterConcat(r, [last], keep);
    Crud.FilterConcat(front, [last], keep);
    Crud.FilterSingle(last, keep);
    assert Crud.Filter(r + [last], keep) == a + xs + ls;
    assert Crud.Filter(s, keep) == a + ls;
    SwapAroundEmpty(a, xs, ls);
  }

  /** Two sequences one of which is empty may be appended in either order. */
  lemma SwapAroundEmpty<T>(a: seq<T>, b: seq<T>, c: seq<T>)
    requires b == [] || c == []
    ensures a + b + c == a + c + b
  {
    if b == [] {
      assert a + b == a;
    } else {
      assert a + c == a;
    }
  }

  /** The sort is stable: the elements with any one key come out in the order
      they went in. */
  lemma {:induction false} SortByStable<T>(s: seq<T>, key: T -> int, k: int)
    ensures Crud.Filter(SortBy(s, key), KeyIs(key, k)) == Crud.Filter(s, KeyIs(key, k))
    decreases |s|
  {
    if |s| > 0 {
      var front := s[..|s| - 1];
      var x := s[|s| - 1];
      assert s == front + [x];
      SortByStable(front, key, k);
      InsertKeepsTies(x, SortBy(front, key), key, k);
      Crud.FilterConcat(front, [x], KeyIs(key, k));
      Crud.FilterSingle(x, KeyIs(key, k));
    }
  }

  /** Hence the first `n` elements of the sorted sequence hold, for each key,
      the first ones of that key in the input's order. */
  lemma SortedPrefixStable<T>(s: seq<T>, key: T -> int, k: int, n: nat)
    requires n <= |s|
    ensures var shown := Crud.Filter(SortBy(s, key)[..n], KeyIs(key, k));
      var all := Crud.Filter(s, KeyIs(key, k));
      |shown| <= |all| && shown == all[..|shown|]
  {
    Crud.FilterOfPrefix(SortBy(s, key), KeyIs(key, k), n);
    SortByStable(s, key, k);
  }
}
