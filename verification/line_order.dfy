/** `OrderBy(x => x.LineNumber)`: a stable sort by an integer key, written as
    insertion sort. */
module LineOrder {

  predicate SortedBy<T>(s: seq<T>, key: T -> int) {
    forall i, j :: 0 <= i < j < |s| ==> key(s[i]) <= key(s[j])
  }

  lemma SortedPrefix<T>(s: seq<T>, key: T -> int)
    requires |s| > 0 && SortedBy(s, key)
    ensures SortedBy(s[..|s| - 1], key)
  {
  }

  lemma SortedLastPair<T>(s: seq<T>, key: T -> int)
    requires |s| >= 2 && SortedBy(s, key)
    ensures key(s[|s| - 2]) <= key(s[|s| - 1])
  {
  }

  /** Places `x` after every trailing element whose key exceeds its own, so
      it lands behind all elements of equal key. */
  function Insert<T>(x: T, s: seq<T>, key: T -> int): (r: seq<T>)
    ensures multiset(r) == multiset(s) + multiset{x}
    ensures |r| == |s| + 1
    decreases |s|
  {
    if |s| == 0 || key(s[|s| - 1]) <= key(x) then s + [x]
    else
      var front := s[..|s| - 1];
      assert s == front + [s[|s| - 1]];
      Insert(x, front, key) + [s[|s| - 1]]
  }

  lemma {:induction false} InsertSorted<T>(x: T, s: seq<T>, key: T -> int)
    requires SortedBy(s, key)
    ensures SortedBy(Insert(x, s, key), key)
    decreases |s|
  {
    if |s| > 0 && key(s[|s| - 1]) > key(x) {
      var front, last := s[..|s| - 1], s[|s| - 1];
      InsertSorted(x, front, key);
      var r0 := Insert(x, front, key);
      forall i | 0 <= i < |r0| ensures key(r0[i]) <= key(last) {
        assert r0[i] in multiset(r0);
        assert r0[i] in multiset(front) || r0[i] == x;
        if r0[i] != x {
          var j :| 0 <= j < |front| && front[j] == r0[i];
          assert front[j] == s[j];
        }
      }
    }
  }

  /** The sorted arrangement of `s`. */
  function SortBy<T>(s: seq<T>, key: T -> int): (r: seq<T>)
    ensures multiset(r) == multiset(s)
    ensures |r| == |s|
    decreases |s|
  {
    if |s| == 0 then []
    else
      var front := s[..|s| - 1];
      assert s == front + [s[|s| - 1]];
      Insert(s[|s| - 1], SortBy(front, key), key)
  }

  lemma {:induction false} SortBySorted<T>(s: seq<T>, key: T -> int)
    ensures SortedBy(SortBy(s, key), key)
    decreases |s|
  {
    if |s| > 0 {
      SortBySorted(s[..|s| - 1], key);
      InsertSorted(s[|s| - 1], SortBy(s[..|s| - 1], key), key);
    }
  }

  /** Already-ordered input comes back unchanged. */
  lemma {:induction false} SortedUnchanged<T>(s: seq<T>, key: T -> int)
    requires SortedBy(s, key)
    ensures SortBy(s, key) == s
    decreases |s|
  {
    if |s| > 0 {
      var front := s[..|s| - 1];
      SortedUnchanged(front, key);
      if |front| > 0 {
        assert front[|front| - 1] == s[|s| - 2];
      }
      assert front + [s[|s| - 1]] == s;
    }
  }

  /** The elements whose key equals `k`, in order. */
  function WithKey<T>(s: seq<T>, key: T -> int, k: int): seq<T>
    decreases |s|
  {
    if |s| == 0 then []
    else WithKey(s[..|s| - 1], key, k) + (if key(s[|s| - 1]) == k then [s[|s| - 1]] else [])
  }

  lemma {:induction false} InsertStable<T>(x: T, s: seq<T>, key: T -> int, k: int)
    ensures WithKey(Insert(x, s, key), key, k)
         == WithKey(s, key, k) + (if key(x) == k then [x] else [])
    decreases |s|
  {
    if |s| == 0 || key(s[|s| - 1]) <= key(x) {
      assert (s + [x])[..|s|] == s;
    } else {
      var front, last := s[..|s| - 1], s[|s| - 1];
      InsertStable(x, front, key, k);
      var r0 := Insert(x, front, key);
      assert (r0 + [last])[..|r0|] == r0;
    }
  }

  /** Elements of equal key keep their relative order: the sort is stable. */
  lemma {:induction false} SortByStable<T>(s: seq<T>, key: T -> int, k: int)
    ensures WithKey(SortBy(s, key), key, k) == WithKey(s, key, k)
    decreases |s|
  {
    if |s| > 0 {
      var front := s[..|s| - 1];
      SortByStable(front, key, k);
      InsertStable(s[|s| - 1], SortBy(front, key), key, k);
    }
  }
}
