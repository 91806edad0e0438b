/** The two collection rewrites every list page performs on a record id:
    `list.map(x => x.id === id ? f(x) : x)` and
    `list.filter(x => x.id !== id)`. The id is read through `idOf`. */
module Crud {

  /** `list.map(x => x.id === id ? f(x) : x)`. */
  function UpdateWhere<T>(s: seq<T>, idOf: T -> int, id: int, f: T -> T): (r: seq<T>)
    ensures |r| == |s|
    ensures forall i :: 0 <= i < |s| && idOf(s[i]) != id ==> r[i] == s[i]
    ensures forall i :: 0 <= i < |s| && idOf(s[i]) == id ==> r[i] == f(s[i])
    decreases |s|
  {
    if |s| == 0 then []
    else
      var last := s[|s| - 1];
      UpdateWhere(s[..|s| - 1], idOf, id, f) + [if idOf(last) == id then f(last) else last]
  }

  /** `list.filter(keep)`. */
  function Filter<T>(s: seq<T>, keep: T -> bool): (r: seq<T>)
    ensures |r| <= |s|
    ensures forall i :: 0 <= i < |r| ==> keep(r[i]) && r[i] in s
    ensures forall i :: 0 <= i < |s| && keep(s[i]) ==> s[i] in r
    decreases |s|
  {
    if |s| == 0 then []
    else
      var last := s[|s| - 1];
      Filter(s[..|s| - 1], keep) + (if keep(last) then [last] else [])
  }

  /** The filter works piecewise, so the kept elements keep their relative
      order. */
  lemma {:induction false} FilterConcat<T>(a: seq<T>, b: seq<T>, keep: T -> bool)
    ensures Filter(a + b, keep) == Filter(a, keep) + Filter(b, keep)
    decreases |b|
  {
    if |b| == 0 {
      assert a + b == a;
    } else {
      var b' := b[..|b| - 1];
      assert (a + b)[..|a + b| - 1] == a + b';
      FilterConcat(a, b', keep);
    }
  }

  /** Filtering a prefix gives a prefix of the filtered whole. */
  lemma FilterOfPrefix<T>(s: seq<T>, keep: T -> bool, n: nat)
    requires n <= |s|
    ensures |Filter(s[..n], keep)| <= |Filter(s, keep)|
    ensures Filter(s[..n], keep) == Filter(s, keep)[..|Filter(s[..n], keep)|]
  {
    assert s == s[..n] + s[n..];
    FilterConcat(s[..n], s[n..], keep);
  }

  lemma FilterSingle<T>(x: T, keep: T -> bool)
    ensures Filter([x], keep) == if keep(x) then [x] else []
  {
    assert [x][..0] == [];
  }

  /** A filter that keeps everything changes nothing. */
  lemma {:induction false} FilterKeepsAll<T>(s: seq<T>, keep: T -> bool)
    requires forall i :: 0 <= i < |s| ==> keep(s[i])
    ensures Filter(s, keep) == s
    decreases |s|
  {
    if |s| > 0 {
      FilterKeepsAll(s[..|s| - 1], keep);
      assert s == s[..|s| - 1] + [s[|s| - 1]];
    }
  }

  /** Exactly the rejected elements are dropped: the length falls by their
      number. */
  lemma {:induction false} FilterLength<T>(s: seq<T>, keep: T -> bool)
    ensures |Filter(s, keep)| == |s| - |set i | 0 <= i < |s| && !keep(s[i])|
    decreases |s|
  {
    if |s| > 0 {
      var n := |s| - 1;
      FilterLength(s[..n], keep);
      var before := set i | 0 <= i < n && !keep(s[..n][i]);
      var after := set i | 0 <= i < |s| && !keep(s[i]);
      assert before == set i | 0 <= i < n && !keep(s[i]);
      if !keep(s[n]) {
        assert after == before + {n};
      } else {
        assert after == before;
      }
    }
  }

  function NotId<T>(idOf: T -> int, id: int): T -> bool {
    x => idOf(x) != id
  }

  /** `list.filter(x => x.id !== id)`. */
  function RemoveId<T>(s: seq<T>, idOf: T -> int, id: int): (r: seq<T>)
    ensures |r| <= |s|
    ensures forall i :: 0 <= i < |r| ==> idOf(r[i]) != id && r[i] in s
    ensures forall i :: 0 <= i < |s| && idOf(s[i]) != id ==> s[i] in r
  {
    Filter(s, NotId(idOf, id))
  }

  /** Deleting an id nobody carries changes nothing, and deleting the same id
      twice is the same as deleting it once. */
  lemma RemoveIdAbsent<T>(s: seq<T>, idOf: T -> int, id: int)
    requires forall i :: 0 <= i < |s| ==> idOf(s[i]) != id
    ensures RemoveId(s, idOf, id) == s
  {
    FilterKeepsAll(s, NotId(idOf, id));
  }

  lemma RemoveIdIdempotent<T>(s: seq<T>, idOf: T -> int, id: int)
    ensures RemoveId(RemoveId(s, idOf, id), idOf, id) == RemoveId(s, idOf, id)
  {
    RemoveIdAbsent(RemoveId(s, idOf, id), idOf, id);
  }

  /** `list.findIndex(x => x.id === id)`: the first position carrying the id. */
  function FindIndex<T>(s: seq<T>, idOf: T -> int, id: int): (r: int)
    ensures -1 <= r < |s|
    ensures r >= 0 ==> idOf(s[r]) == id && forall i :: 0 <= i < r ==> idOf(s[i]) != id
    ensures r == -1 <==> forall i :: 0 <= i < |s| ==> idOf(s[i]) != id
    decreases |s|
  {
    if |s| == 0 then -1
    else if idOf(s[0]) == id then 0
    else
      var k := FindIndex(s[1..], idOf, id);
      if k == -1 then -1 else k + 1
  }

  /** `arr[i] = x`: the record at `i` is replaced and every other record keeps
      its value and position. */
  function ReplaceAt<T>(s: seq<T>, i: nat, x: T): (r: seq<T>)
    requires i < |s|
    ensures |r| == |s| && r[i] == x
    ensures forall j :: 0 <= j < |s| && j != i ==> r[j] == s[j]
  {
    s[i := x]
  }
}
