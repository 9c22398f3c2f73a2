/** Python's `list.sort(key=...)`: a stable sort by an integer key. The model is insertion
    sort; what callers rely on is that the result is ordered by key, is a permutation of the
    input, and keeps the input order among elements with equal keys. */
module Sorting {

  predicate SortedBy<T>(s: seq<T>, key: T -> int) {
    forall i, j :: 0 <= i < j < |s| ==> key(s[i]) <= key(s[j])
  }

  /** The elements of `s` whose key is `k`, in the order of `s`. */
  function WithKey<T>(s: seq<T>, key: T -> int, k: int): (r: seq<T>)
    ensures |r| <= |s|
  {
    if s == [] then []
    else WithKey(s[..|s| - 1], key, k) + (if key(s[|s| - 1]) == k then [s[|s| - 1]] else [])
  }

  /** Inserts `x` after every element whose key is at most its own. */
  function Insert<T>(x: T, s: seq<T>, key: T -> int): (r: seq<T>)
    ensures |r| == |s| + 1
    ensures multiset(r) == multiset(s) + multiset{x}
  {
    if s == [] then [x]
    else if key(x) < key(s[0]) then [x] + s
    else
      assert s == [s[0]] + s[1..];
      [s[0]] + Insert(x, s[1..], key)
  }

  function SortByKey<T>(s: seq<T>, key: T -> int): (r: seq<T>)
    ensures |r| == |s|
    ensures multiset(r) == multiset(s)
  {
    if s == [] then []
    else
      assert s == s[..|s| - 1] + [s[|s| - 1]];
      Insert(s[|s| - 1], SortByKey(s[..|s| - 1], key), key)
  }

  /** Every element of the sorted sequence is an element of the input. */
  lemma SortByKeyOrigin<T>(s: seq<T>, key: T -> int, k: nat) returns (a: nat)
    requires k < |s|
    ensures a < |s| && s[a] == SortByKey(s, key)[k]
  {
    var r := SortByKey(s, key);
    assert r[k] in multiset(s);
    a :| 0 <= a < |s| && s[a] == r[k];
  }

  lemma {:induction false} InsertSorted<T>(x: T, s: seq<T>, key: T -> int)
    requires SortedBy(s, key)
    ensures SortedBy(Insert(x, s, key), key)
  {
    if s != [] && key(x) >= key(s[0]) {
      InsertSorted(x, s[1..], key);
      var r := Insert(x, s[1..], key);
      assert Insert(x, s, key) == [s[0]] + r;
      forall i | 0 <= i < |r| ensures key(s[0]) <= key(r[i]) {
        assert r[i] in multiset(r);
        if r[i] != x {
          assert r[i] in multiset(s[1..]);
          var j :| 0 <= j < |s[1..]| && s[1..][j] == r[i];
          assert s[1..][j] == s[j + 1];
        }
      }
    }
  }

  lemma {:induction false} SortByKeySorted<T>(s: seq<T>, key: T -> int)
    ensures SortedBy(SortByKey(s, key), key)
  {
    if s != [] {
      SortByKeySorted(s[..|s| - 1], key);
      InsertSorted(s[|s| - 1], SortByKey(s[..|s| - 1], key), key);
    }
  }

  /** Inserting into a sorted sequence puts `x` after every element with its key. */
  lemma {:induction false} InsertStable<T>(x: T, s: seq<T>, key: T -> int, k: int)
    requires SortedBy(s, key)
    ensures WithKey(Insert(x, s, key), key, k)
         == WithKey(s, key, k) + (if key(x) == k then [x] else [])
  {
    if s == [] {
      assert [x][..0] == [];
    } else if key(x) < key(s[0]) {
      InsertFront(x, s, key, k);
    } else {
      InsertStable(x, s[1..], key, k);
      InsertBehind(x, s, key, k);
    }
  }

  /** `x` goes in front when its key is below every key of `s`. */
  lemma InsertFront<T>(x: T, s: seq<T>, key: T -> int, k: int)
    requires SortedBy(s, key) && s != [] && key(x) < key(s[0])
    ensures WithKey(Insert(x, s, key), key, k)
         == WithKey(s, key, k) + (if key(x) == k then [x] else [])
  {
    assert forall i :: 0 <= i < |s| ==> key(s[i]) != key(x);
    WithKeyPrepend(x, s, key, k);
    if key(x) == k {
      WithKeyNone(s, key, k);
    }
  }

  lemma InsertBehind<T>(x: T, s: seq<T>, key: T -> int, k: int)
    requires s != [] && key(x) >= key(s[0])
    requires WithKey(Insert(x, s[1..], key), key, k)
          == WithKey(s[1..], key, k) + (if key(x) == k then [x] else [])
    ensures WithKey(Insert(x, s, key), key, k)
         == WithKey(s, key, k) + (if key(x) == k then [x] else [])
  {
    WithKeyPrepend(s[0], s[1..], key, k);
    WithKeyPrepend(s[0], Insert(x, s[1..], key), key, k);
    assert [s[0]] + s[1..] == s;
  }

  lemma {:induction false} WithKeyPrepend<T>(x: T, s: seq<T>, key: T -> int, k: int)
    ensures WithKey([x] + s, key, k) == (if key(x) == k then [x] else []) + WithKey(s, key, k)
    decreases |s|
  {
    if s != [] {
      var t := [x] + s;
      assert t[..|t| - 1] == [x] + s[..|s| - 1];
      WithKeyPrepend(x, s[..|s| - 1], key, k);
    } else {
      assert ([x] + s)[..0] == [];
    }
  }

  lemma {:induction false} WithKeyNone<T>(s: seq<T>, key: T -> int, k: int)
    requires forall i :: 0 <= i < |s| ==> key(s[i]) != k
    ensures WithKey(s, key, k) == []
  {
    if s != [] {
      WithKeyNone(s[..|s| - 1], key, k);
    }
  }

  /** The sort is stable: the elements with any one key keep their input order. */
  lemma {:induction false} SortByKeyStable<T>(s: seq<T>, key: T -> int, k: int)
    ensures WithKey(SortByKey(s, key), key, k) == WithKey(s, key, k)
  {
    if s != [] {
      var p := s[..|s| - 1];
      SortByKeyStable(p, key, k);
      SortByKeySorted(p, key);
      InsertStable(s[|s| - 1], SortByKey(p, key), key, k);
    }
  }

  /** The first and last elements of the sorted sequence are elements of the input with the
      least and the greatest key. */
  lemma SortedEnds<T>(s: seq<T>, key: T -> int)
    requires |s| > 0
    ensures SortByKey(s, key)[0] in s && SortByKey(s, key)[|s| - 1] in s
    ensures forall i :: 0 <= i < |s| ==>
      key(SortByKey(s, key)[0]) <= key(s[i]) <= key(SortByKey(s, key)[|s| - 1])
  {
    var r := SortByKey(s, key);
    SortByKeySorted(s, key);
    assert r[0] in multiset(s) && r[|r| - 1] in multiset(s);
    forall i | 0 <= i < |s| ensures key(r[0]) <= key(s[i]) <= key(r[|s| - 1]) {
      assert s[i] in multiset(r);
      var j :| 0 <= j < |r| && r[j] == s[i];
      if 0 < j {
        assert key(r[0]) <= key(r[j]);
      }
      if j < |r| - 1 {
        assert key(r[j]) <= key(r[|r| - 1]);
      }
    }
  }

  predicate DistinctKeys<T>(s: seq<T>, key: T -> int) {
    forall i, j :: 0 <= i < j < |s| ==> key(s[i]) != key(s[j])
  }

  /** Sorting elements whose keys are pairwise distinct orders them strictly. */
  lemma SortDistinctStrict<T>(s: seq<T>, key: T -> int)
    requires DistinctKeys(s, key)
    ensures forall i, j :: 0 <= i < j < |s| ==> key(SortByKey(s, key)[i]) < key(SortByKey(s, key)[j])
  {
    var r := SortByKey(s, key);
    SortByKeySorted(s, key);
    forall i, j | 0 <= i < j < |s| ensures key(r[i]) < key(r[j]) {
      if key(r[i]) == key(r[j]) {
        var k := key(r[i]);
        WithKeyTwo(r, key, k, i, j);
        SortByKeyStable(s, key, k);
        WithKeyAtMostOne(s, key, k);
        assert false;
      }
    }
  }

  lemma {:induction false} WithKeyOne<T>(s: seq<T>, key: T -> int, k: int, i: nat)
    requires i < |s| && key(s[i]) == k
    ensures |WithKey(s, key, k)| >= 1
    decreases |s|
  {
    if i < |s| - 1 {
      WithKeyOne(s[..|s| - 1], key, k, i);
    }
  }

  lemma {:induction false} WithKeyTwo<T>(s: seq<T>, key: T -> int, k: int, i: nat, j: nat)
    requires i < j < |s| && key(s[i]) == k && key(s[j]) == k
    ensures |WithKey(s, key, k)| >= 2
    decreases |s|
  {
    if j == |s| - 1 {
      WithKeyOne(s[..|s| - 1], key, k, i);
    } else {
      WithKeyTwo(s[..|s| - 1], key, k, i, j);
    }
  }

  lemma {:induction false} WithKeyAtMostOne<T>(s: seq<T>, key: T -> int, k: int)
    requires DistinctKeys(s, key)
    ensures |WithKey(s, key, k)| <= 1
    decreases |s|
  {
    if s != [] {
      var p := s[..|s| - 1];
      if key(s[|s| - 1]) == k {
        WithKeyNone(p, key, k);
      } else {
        WithKeyAtMostOne(p, key, k);
      }
    }
  }
}
