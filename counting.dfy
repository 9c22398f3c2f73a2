/** Counting the elements of a sequence that satisfy a test, as the services' counters and
    comprehension lengths do. */
module Counting {

  function Count<T>(s: seq<T>, p: T -> bool): (n: nat)
    ensures n <= |s|
    decreases |s|
  {
    if s == [] then 0 else Count(s[..|s| - 1], p) + (if p(s[|s| - 1]) then 1 else 0)
  }

  lemma {:induction false} CountAppend<T>(a: seq<T>, b: seq<T>, p: T -> bool)
    ensures Count(a + b, p) == Count(a, p) + Count(b, p)
    decreases |b|
  {
    if b != [] {
      assert (a + b)[..|a + b| - 1] == a + b[..|b| - 1];
      CountAppend(a, b[..|b| - 1], p);
    } else {
      assert a + b == a;
    }
  }

  /** The count depends only on the multiset of elements. */
  lemma {:induction false} CountPermutation<T>(a: seq<T>, b: seq<T>, p: T -> bool)
    requires multiset(a) == multiset(b)
    ensures Count(a, p) == Count(b, p)
    decreases |a|
  {
    if a != [] {
      var x := a[|a| - 1];
      var a' := a[..|a| - 1];
      assert x in multiset(b) by {
        assert a == a' + [x];
      }
      var k :| 0 <= k < |b| && b[k] == x;
      var b' := b[..k] + b[k + 1..];
      assert multiset(a') == multiset(b') by {
        assert a == a' + [x];
        MultisetRemove(b, k);
        assert multiset(a') + multiset{x} == multiset(b') + multiset{x};
        assert multiset(a') == multiset(a') + multiset{x} - multiset{x};
        assert multiset(b') == multiset(b') + multiset{x} - multiset{x};
      }
      CountPermutation(a', b', p);
      CountRemove(b, k, p);
    } else {
      assert |multiset(b)| == 0;
    }
  }

  lemma MultisetRemove<T>(b: seq<T>, k: nat)
    requires k < |b|
    ensures multiset(b) == multiset(b[..k] + b[k + 1..]) + multiset{b[k]}
  {
    assert b == b[..k] + [b[k]] + b[k + 1..];
  }

  /** Taking out the element at `k` lowers the count by one exactly when it passes. */
  lemma CountRemove<T>(b: seq<T>, k: nat, p: T -> bool)
    requires k < |b|
    ensures Count(b, p) == Count(b[..k] + b[k + 1..], p) + (if p(b[k]) then 1 else 0)
  {
    assert b == b[..k] + [b[k]] + b[k + 1..];
    CountMiddle(b[..k], b[k], b[k + 1..], p);
  }

  lemma CountMiddle<T>(l: seq<T>, x: T, r: seq<T>, p: T -> bool)
    ensures Count(l + [x] + r, p) == Count(l + r, p) + (if p(x) then 1 else 0)
  {
    CountAppend(l + [x], r, p);
    CountAppend(l, [x], p);
    CountAppend(l, r, p);
    CountOne(x, p);
  }

  lemma CountOne<T>(x: T, p: T -> bool)
    ensures Count([x], p) == (if p(x) then 1 else 0)
  {
    assert [x][..0] == [];
  }

  /** At least two elements pass the test exactly when two distinct positions do. */
  lemma {:induction false} CountAtLeastTwo<T>(s: seq<T>, p: T -> bool)
    ensures Count(s, p) >= 2 <==> exists i, j :: 0 <= i < j < |s| && p(s[i]) && p(s[j])
    decreases |s|
  {
    if s != [] {
      var s' := s[..|s| - 1];
      CountAtLeastTwo(s', p);
      CountAtLeastOne(s', p);
      if exists i, j :: 0 <= i < j < |s| && p(s[i]) && p(s[j]) {
        var i, j :| 0 <= i < j < |s| && p(s[i]) && p(s[j]);
        if j < |s| - 1 {
          assert s'[i] == s[i] && s'[j] == s[j];
        } else {
          assert s'[i] == s[i];
        }
      }
      if Count(s, p) >= 2 {
        if Count(s', p) >= 2 {
          var i, j :| 0 <= i < j < |s'| && p(s'[i]) && p(s'[j]);
          assert s[i] == s'[i] && s[j] == s'[j];
        } else {
          var i :| 0 <= i < |s'| && p(s'[i]);
          assert s[i] == s'[i];
          assert p(s[|s| - 1]);
        }
      }
    }
  }

  lemma {:induction false} CountAtLeastOne<T>(s: seq<T>, p: T -> bool)
    ensures Count(s, p) >= 1 <==> exists i :: 0 <= i < |s| && p(s[i])
    decreases |s|
  {
    if s != [] {
      var s' := s[..|s| - 1];
      CountAtLeastOne(s', p);
      if Count(s', p) >= 1 {
        var i :| 0 <= i < |s'| && p(s'[i]);
        assert s[i] == s'[i];
      }
      if exists i :: 0 <= i < |s| && p(s[i]) {
        var i :| 0 <= i < |s| && p(s[i]);
        if i < |s| - 1 {
          assert s'[i] == s[i];
        }
      }
    }
  }

  /** Sequences whose elements pass the test at the same positions have the same count. */
  lemma {:induction false} CountPointwise<T>(a: seq<T>, b: seq<T>, p: T -> bool)
    requires |a| == |b| && forall i :: 0 <= i < |a| ==> p(a[i]) == p(b[i])
    ensures Count(a, p) == Count(b, p)
    decreases |a|
  {
    if a != [] {
      CountPointwise(a[..|a| - 1], b[..|b| - 1], p);
    }
  }
}
