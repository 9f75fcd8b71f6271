/** The stable sort the analyzer uses, as a function of the sequence and a key. */
module Sorting {
  ghost predicate SortedBy<T(!new)>(s: seq<T>, key: T -> int)
  {
    forall i, j :: 0 <= i < j < |s| ==> key(s[i]) <= key(s[j])
  }

  /** Insert behind every element whose key is not larger. */
  function Insert<T>(s: seq<T>, x: T, key: T -> int): (r: seq<T>)
    ensures |r| == |s| + 1
  {
    if s != [] && key(x) < key(s[|s| - 1]) then Insert(s[..|s| - 1], x, key) + [s[|s| - 1]] else s + [x]
  }

  function StableSort<T>(s: seq<T>, key: T -> int): (r: seq<T>)
    ensures |r| == |s|
  {
    if s == [] then [] else Insert(StableSort(s[..|s| - 1], key), s[|s| - 1], key)
  }

  lemma {:induction false} InsertPermutes<T>(s: seq<T>, x: T, key: T -> int)
    ensures multiset(Insert(s, x, key)) == multiset(s) + multiset{x}
  {
    if s != [] && key(x) < key(s[|s| - 1]) {
      InsertPermutes(s[..|s| - 1], x, key);
      assert s == s[..|s| - 1] + [s[|s| - 1]];
    }
  }

  lemma {:induction false} InsertSorts<T(!new)>(s: seq<T>, x: T, key: T -> int)
    requires SortedBy(s, key)
    ensures SortedBy(Insert(s, x, key), key)
  {
    if s != [] && key(x) < key(s[|s| - 1]) {
      var init, last := s[..|s| - 1], s[|s| - 1];
      InsertSorts(init, x, key);
      InsertPermutes(init, x, key);
      var r := Insert(init, x, key);
      forall i | 0 <= i < |r|
        ensures key(r[i]) <= key(last)
      {
        assert r[i] in multiset(r);
        assert r[i] == x || r[i] in init;
      }
    }
  }

  /** The result is sorted and a permutation of the input. */
  lemma {:induction false} StableSortSorts<T(!new)>(s: seq<T>, key: T -> int)
    ensures SortedBy(StableSort(s, key), key)
    ensures multiset(StableSort(s, key)) == multiset(s)
  {
    if s != [] {
      StableSortSorts(s[..|s| - 1], key);
      InsertSorts(StableSort(s[..|s| - 1], key), s[|s| - 1], key);
      InsertPermutes(StableSort(s[..|s| - 1], key), s[|s| - 1], key);
      assert s == s[..|s| - 1] + [s[|s| - 1]];
    }
  }

  function WithKey<T>(s: seq<T>, key: T -> int, k: int): (r: seq<T>)
  {
    if s == [] then []
    else WithKey(s[..|s| - 1], key, k) + if key(s[|s| - 1]) == k then [s[|s| - 1]] else []
  }

  lemma {:induction false} InsertKeepsTies<T(!new)>(s: seq<T>, x: T, key: T -> int, k: int)
    requires SortedBy(s, key)
    ensures WithKey(Insert(s, x, key), key, k) == WithKey(s, key, k) + if key(x) == k then [x] else []
  {
    if s != [] && key(x) < key(s[|s| - 1]) {
      var init, last := s[..|s| - 1], s[|s| - 1];
      InsertKeepsTies(init, x, key, k);
      var r := Insert(s, x, key);
      assert r[..|r| - 1] == Insert(init, x, key) && r[|r| - 1] == last;
      if key(last) == k {
        assert key(x) != k;
      }
    } else {
      assert (s + [x])[..|s|] == s;
    }
  }

  /** Elements with equal keys keep their order. */
  lemma {:induction false} StableSortKeepsTies<T(!new)>(s: seq<T>, key: T -> int, k: int)
    ensures WithKey(StableSort(s, key), key, k) == WithKey(s, key, k)
  {
    if s != [] {
      StableSortKeepsTies(s[..|s| - 1], key, k);
      StableSortSorts(s[..|s| - 1], key);
      InsertKeepsTies(StableSort(s[..|s| - 1], key), s[|s| - 1], key, k);
    }
  }

  function SumBy<T>(s: seq<T>, f: T -> nat): (r: nat)
  {
    if s == [] then 0 else SumBy(s[..|s| - 1], f) + f(s[|s| - 1])
  }

  lemma {:induction false} SumByInsert<T>(s: seq<T>, x: T, key: T -> int, f: T -> nat)
    ensures SumBy(Insert(s, x, key), f) == SumBy(s, f) + f(x)
  {
    if s != [] && key(x) < key(s[|s| - 1]) {
      SumByInsert(s[..|s| - 1], x, key, f);
      assert Insert(s, x, key)[..|s|] == Insert(s[..|s| - 1], x, key);
    } else {
      assert (s + [x])[..|s|] == s;
    }
  }

  /** Sorting keeps every sum over the elements. */
  lemma {:induction false} SumBySorted<T>(s: seq<T>, key: T -> int, f: T -> nat)
    ensures SumBy(StableSort(s, key), f) == SumBy(s, f)
  {
    if s != [] {
      SumBySorted(s[..|s| - 1], key, f);
      SumByInsert(StableSort(s[..|s| - 1], key), s[|s| - 1], key, f);
    }
  }

  lemma SumByMore<T>(s: seq<T>, x: T, f: T -> nat)
    ensures SumBy(s + [x], f) == SumBy(s, f) + f(x)
  {
    assert (s + [x])[..|s|] == s;
  }

  lemma {:induction false} SumByUpdate<T>(s: seq<T>, i: nat, x: T, f: T -> nat)
    requires i < |s|
    ensures SumBy(s[i := x], f) + f(s[i]) == SumBy(s, f) + f(x)
    decreases |s|
  {
    var init := s[..|s| - 1];
    if i < |s| - 1 {
      SumByUpdate(init, i, x, f);
      assert s[i := x][..|s| - 1] == init[i := x];
    } else {
      assert s[i := x][..|s| - 1] == init;
    }
  }
}
