/** The comparator sorts of the client pages (`Array.prototype.sort`, which is
    stable) over a numeric key. A descending sort is the ascending sort on the
    negated key. */
module Sorting {

  predicate SortedBy<T>(s: seq<T>, key: T -> int) {
    forall i, j :: 0 <= i < j < |s| ==> key(s[i]) <= key(s[j])
  }

  /** A head no larger than the first key extends a sorted sequence. */
  lemma SortedCons<T>(h: T, t: seq<T>, key: T -> int)
    requires SortedBy(t, key) && (t != [] ==> key(h) <= key(t[0]))
    ensures SortedBy([h] + t, key)
  {
    var r := [h] + t;
    forall i, j | 0 <= i < j < |r|
      ensures key(r[i]) <= key(r[j])
    {
      if i == 0 {
        assert r[j] == t[j - 1];
        assert key(t[0]) <= key(t[j - 1]);
      } else {
        assert r[i] == t[i - 1] && r[j] == t[j - 1];
      }
    }
  }

  /** Inserts `x` after every element whose key is not larger, so that equal
      keys keep their arrival order. */
  function Insert<T>(x: T, s: seq<T>, key: T -> int): (r: seq<T>)
    requires SortedBy(s, key)
    ensures SortedBy(r, key)
    ensures multiset(r) == multiset(s) + multiset{x}
    ensures |r| == |s| + 1
    ensures r[0] == x || (s != [] && r[0] == s[0])
  {
    if s == [] then [x]
    else if key(x) < key(s[0]) then
      SortedCons(x, s, key);
      [x] + s
    else
      var rest := Insert(x, s[1..], key);
      assert s == [s[0]] + s[1..];
      SortedCons(s[0], rest, key);
      [s[0]] + rest
  }

  /** Placing `x` after every element whose key is not larger: the insertion
      point splits `s` into the keys up to `key(x)` and the larger ones. */
  lemma {:induction false} InsertGoesAfterEqualKeys<T>(x: T, s: seq<T>, key: T -> int) returns (p: nat)
    requires SortedBy(s, key)
    ensures p <= |s| && Insert(x, s, key) == s[..p] + [x] + s[p..]
    ensures forall i :: 0 <= i < p ==> key(s[i]) <= key(x)
    ensures forall i :: p <= i < |s| ==> key(x) < key(s[i])
    decreases |s|
  {
    if s == [] || key(x) < key(s[0]) {
      p := 0;
      assert s[..0] + [x] + s[0..] == [x] + s;
      forall i | 0 <= i < |s|
        ensures key(x) < key(s[i])
      {
        assert key(s[0]) <= key(s[i]);
      }
    } else {
      var t := s[1..];
      var q := InsertGoesAfterEqualKeys(x, t, key);
      p := q + 1;
      assert Insert(x, s, key) == [s[0]] + Insert(x, t, key);
      SplitAfterHead(s, q, x);
      forall i | 0 <= i < p
        ensures key(s[i]) <= key(x)
      {
        if i > 0 {
          assert s[i] == t[i - 1];
        }
      }
      forall i | p <= i < |s|
        ensures key(x) < key(s[i])
      {
        assert s[i] == t[i - 1];
      }
    }
  }

  lemma SplitAfterHead<T>(s: seq<T>, q: nat, x: T)
    requires q < |s|
    ensures s[..q + 1] + [x] + s[q + 1..] == [s[0]] + (s[1..][..q] + [x] + s[1..][q..])
  {
    assert s[..q + 1] == [s[0]] + s[1..][..q];
    assert s[q + 1..] == s[1..][q..];
  }

  /** The stable sort by `key`: each element in turn is inserted after every
      earlier element whose key is not larger, so equal keys keep their
      input order. */
  function StableSort<T>(s: seq<T>, key: T -> int): (r: seq<T>)
    ensures SortedBy(r, key)
    ensures multiset(r) == multiset(s)
    ensures |r| == |s|
    decreases |s|
  {
    if s == [] then []
    else
      assert s == s[..|s| - 1] + [s[|s| - 1]];
      Insert(s[|s| - 1], StableSort(s[..|s| - 1], key), key)
  }

  /** Sorting keeps exactly the elements it was given. */
  lemma StableSortMembers<T>(s: seq<T>, key: T -> int)
    ensures forall x :: x in StableSort(s, key) <==> x in s
  {
    var r := StableSort(s, key);
    forall x
      ensures x in r <==> x in s
    {
      assert x in r <==> x in multiset(r);
      assert x in s <==> x in multiset(s);
    }
  }

  method SortByKey<T>(s: seq<T>, key: T -> int) returns (r: seq<T>)
    ensures r == StableSort(s, key)
    ensures SortedBy(r, key)
    ensures multiset(r) == multiset(s)
  {
    r := [];
    for i := 0 to |s|
      invariant r == StableSort(s[..i], key)
    {
      assert s[..i + 1][..i] == s[..i];
      r := Insert(s[i], r, key);
    }
    assert s[..|s|] == s;
  }

  /** The first `n` elements, or all of them when there are fewer (`slice(0, n)`). */
  function Take<T>(s: seq<T>, n: nat): (r: seq<T>)
    ensures |r| <= n && |r| <= |s|
    ensures |r| == if |s| < n then |s| else n
    ensures r == s[..|r|]
  {
    if |s| <= n then s else s[..n]
  }

  /** The first `n` elements of a sorted sequence hold its smallest keys:
      every element left out has a key no smaller than any element kept. */
  lemma TakeOfSortedIsSmallest<T>(s: seq<T>, key: T -> int, n: nat)
    requires SortedBy(s, key)
    ensures forall x, y :: x in s && x !in Take(s, n) && y in Take(s, n) ==> key(y) <= key(x)
  {
    var t := Take(s, n);
    forall x, y | x in s && x !in t && y in t
      ensures key(y) <= key(x)
    {
      var j :| 0 <= j < |s| && s[j] == x;
      var i :| 0 <= i < |t| && t[i] == y;
      assert s[i] == y;
      assert j >= |t| by {
        assert forall k :: 0 <= k < |t| ==> t[k] == s[k];
      }
    }
  }

  /** `s.sort(...).slice(0, n)`: the `n` elements with the smallest keys, in
      key order. */
  method SmallestByKey<T>(s: seq<T>, key: T -> int, n: nat) returns (top: seq<T>)
    ensures |top| == if |s| < n then |s| else n
    ensures SortedBy(top, key)
    ensures forall x :: x in top ==> x in s
    ensures forall x, y :: x in s && x !in top && y in top ==> key(y) <= key(x)
    ensures top == Take(StableSort(s, key), n)
  {
    var sorted := SortByKey(s, key);
    top := Take(sorted, n);
    TakeOfSortedIsSmallest(sorted, key, n);
    forall x | x in top
      ensures x in s
    {
      assert x in multiset(sorted);
    }
    forall x | x in s
      ensures x in sorted
    {
      assert x in multiset(s);
    }
  }
}
