/** Small facts about sequences used by every stage: distinct elements and order-preserving filters. */
module Seqs {

  /** No element occurs twice. */
  ghost predicate Distinct<T>(s: seq<T>)
  {
    forall i, j :: 0 <= i < j < |s| ==> s[i] != s[j]
  }

  /** The elements satisfying `p`, in their original order (pandas' column and row filters). */
  function Filter<T(!new)>(s: seq<T>, p: T -> bool): (r: seq<T>)
    ensures |r| <= |s|
    ensures forall x :: x in r <==> x in s && p(x)
    ensures forall i :: 0 <= i < |r| ==> p(r[i])
  {
    if s == [] then []
    else
      var r := Filter(s[..|s| - 1], p);
      assert forall x :: x in s <==> x in s[..|s| - 1] || x == s[|s| - 1];
      if p(s[|s| - 1]) then r + [s[|s| - 1]] else r
  }

  /** Filtering a distinct sequence leaves it distinct. */
  lemma {:induction false} FilterDistinct<T(!new)>(s: seq<T>, p: T -> bool)
    requires Distinct(s)
    ensures Distinct(Filter(s, p))
    decreases |s|
  {
    if s != [] {
      var init := s[..|s| - 1];
      assert Distinct(init) by {
        forall i, j | 0 <= i < j < |init| ensures init[i] != init[j] {
          assert init[i] == s[i] && init[j] == s[j];
        }
      }
      FilterDistinct(init, p);
      var last := s[|s| - 1];
      assert last !in init;
    }
  }

  /** Filtering one element more at the end. */
  lemma FilterSnoc<T(!new)>(s: seq<T>, x: T, p: T -> bool)
    ensures Filter(s + [x], p) == Filter(s, p) + (if p(x) then [x] else [])
  {
    assert (s + [x])[..|s + [x]| - 1] == s;
  }

  /** `s` is in non-increasing order of `key`. */
  predicate Descending<T>(s: seq<T>, key: T -> real)
  {
    forall i, j :: 0 <= i < j < |s| ==> key(s[i]) >= key(s[j])
  }

  /** Put `x` in front of the first element whose key does not exceed `key(x)`. */
  function Insert<T>(x: T, s: seq<T>, key: T -> real): (r: seq<T>)
    ensures multiset(r) == multiset(s) + multiset{x}
    ensures |r| == |s| + 1
  {
    if s == [] || key(x) >= key(s[0]) then [x] + s
    else
      assert s == [s[0]] + s[1..];
      [s[0]] + Insert(x, s[1..], key)
  }

  /** `sort_values(ascending=False)`: a permutation of `s` in non-increasing order of `key`. */
  function SortDescending<T>(s: seq<T>, key: T -> real): (r: seq<T>)
    ensures multiset(r) == multiset(s)
    ensures |r| == |s|
  {
    if s == [] then []
    else
      assert s == [s[0]] + s[1..];
      Insert(s[0], SortDescending(s[1..], key), key)
  }

  lemma {:induction false} InsertDescending<T>(x: T, s: seq<T>, key: T -> real)
    requires Descending(s, key)
    ensures Descending(Insert(x, s, key), key)
    decreases |s|
  {
    if s == [] || key(x) >= key(s[0]) {
      DescendingCons(x, s, key);
    } else {
      var t := s[1..];
      DescendingTail(s, key);
      InsertDescending(x, t, key);
      var r := Insert(x, t, key);
      forall y | y in r ensures key(s[0]) >= key(y) {
        InsertBelow(x, t, key, s[0], y);
      }
      DescendingCons(s[0], r, key);
    }
  }

  /** A descending sequence stays descending without its head. */
  lemma DescendingTail<T>(s: seq<T>, key: T -> real)
    requires Descending(s, key) && s != []
    ensures Descending(s[1..], key)
  {
    var t := s[1..];
    forall i, j | 0 <= i < j < |t| ensures key(t[i]) >= key(t[j]) {
      assert t[i] == s[i + 1] && t[j] == s[j + 1];
    }
  }

  /** An element of `Insert(x, t)` is `x` or an element of `t`, so the head of `[h] + t` bounds it. */
  lemma InsertBelow<T>(x: T, t: seq<T>, key: T -> real, h: T, y: T)
    requires Descending([h] + t, key) && key(h) >= key(x)
    requires y in Insert(x, t, key)
    ensures key(h) >= key(y)
  {
    assert y in multiset(Insert(x, t, key));
    if y != x {
      assert y in multiset(t);
      var k :| 0 <= k < |t| && t[k] == y;
      assert ([h] + t)[0] == h && ([h] + t)[k + 1] == y;
    }
  }

  /** A head no smaller than every element of a descending sequence keeps it descending. */
  lemma DescendingCons<T>(h: T, r: seq<T>, key: T -> real)
    requires Descending(r, key)
    requires r == [] || key(h) >= key(r[0])
    ensures Descending([h] + r, key)
  {
    var s := [h] + r;
    forall i, j | 0 <= i < j < |s| ensures key(s[i]) >= key(s[j]) {
      if i == 0 {
        assert s[j] == r[j - 1];
        assert key(r[0]) >= key(r[j - 1]);
      } else {
        assert s[i] == r[i - 1] && s[j] == r[j - 1];
      }
    }
  }

  /** The sort's result is in non-increasing order of the key. */
  lemma {:induction false} SortDescendingOrdered<T>(s: seq<T>, key: T -> real)
    ensures Descending(SortDescending(s, key), key)
    decreases |s|
  {
    if s != [] {
      SortDescendingOrdered(s[1..], key);
      InsertDescending(s[0], SortDescending(s[1..], key), key);
    }
  }

  /** Permutations of each other have the same elements. */
  lemma PermutationMembers<T>(s: seq<T>, t: seq<T>)
    requires multiset(s) == multiset(t)
    ensures forall x :: x in s <==> x in t
  {
    forall x ensures x in s <==> x in t {
      assert x in s <==> x in multiset(s);
      assert x in t <==> x in multiset(t);
    }
  }

  /** A permutation of a distinct sequence is distinct. */
  lemma PermutationDistinct<T>(s: seq<T>, t: seq<T>)
    requires multiset(s) == multiset(t)
    requires Distinct(s)
    ensures Distinct(t)
  {
    forall i, j | 0 <= i < j < |t| ensures t[i] != t[j] {
      if t[i] == t[j] {
        var x := t[i];
        assert multiset(t)[x] >= 2 by {
          assert t == t[..i] + [x] + t[i + 1..j] + [x] + t[j + 1..];
        }
        DistinctCount(s, x);
        assert false;
      }
    }
  }

  /** In a distinct sequence every element occurs once. */
  lemma {:induction false} DistinctCount<T>(s: seq<T>, x: T)
    requires Distinct(s)
    ensures multiset(s)[x] <= 1
    decreases |s|
  {
    if s != [] {
      var init := s[..|s| - 1];
      assert Distinct(init) by {
        forall i, j | 0 <= i < j < |init| ensures init[i] != init[j] {
          assert init[i] == s[i] && init[j] == s[j];
        }
      }
      DistinctCount(init, x);
      assert s == init + [s[|s| - 1]];
      assert s[|s| - 1] !in init;
    }
  }

  /** Filtering distributes over concatenation. */
  lemma {:induction false} FilterConcat<T(!new)>(a: seq<T>, b: seq<T>, p: T -> bool)
    ensures Filter(a + b, p) == Filter(a, p) + Filter(b, p)
    decreases |b|
  {
    if b != [] {
      var init, last := b[..|b| - 1], b[|b| - 1];
      assert b == init + [last];
      assert a + b == (a + init) + [last];
      FilterConcat(a, init, p);
      FilterSnoc(a + init, last, p);
      FilterSnoc(init, last, p);
    } else {
      assert a + b == a;
    }
  }

  /** A filter that every element passes keeps the sequence. */
  lemma {:induction false} FilterAll<T(!new)>(s: seq<T>, p: T -> bool)
    requires forall i :: 0 <= i < |s| ==> p(s[i])
    ensures Filter(s, p) == s
    decreases |s|
  {
    if s != [] {
      FilterAll(s[..|s| - 1], p);
    }
  }

  /** A filter that no element passes gives the empty sequence. */
  lemma FilterNone<T(!new)>(s: seq<T>, p: T -> bool)
    requires forall i :: 0 <= i < |s| ==> !p(s[i])
    ensures Filter(s, p) == []
  {
    var r := Filter(s, p);
    if r != [] {
      assert false;
    }
  }

  /** A filter that exactly one position passes keeps that element alone. */
  lemma {:induction false} FilterSingle<T(!new)>(s: seq<T>, i: nat, p: T -> bool)
    requires i < |s| && p(s[i])
    requires forall k :: 0 <= k < |s| && k != i ==> !p(s[k])
    ensures Filter(s, p) == [s[i]]
    decreases |s|
  {
    var n := |s| - 1;
    var init := s[..n];
    assert forall k :: 0 <= k < n ==> init[k] == s[k];
    if i == n {
      FilterNone(init, p);
    } else {
      FilterSingle(init, i, p);
    }
  }

  /** A non-empty sequence is its front followed by its last element. */
  lemma SplitLast<T>(s: seq<T>)
    requires s != []
    ensures s == s[..|s| - 1] + [s[|s| - 1]]
  {
  }

  lemma AppendNothing<T>(s: seq<T>)
    ensures s + [] == s
  {
  }

  /** A sequence is the elements before `j`, element `j`, and the elements after it. */
  lemma SplitAt<T>(s: seq<T>, j: nat)
    requires j < |s|
    ensures s == s[..j] + [s[j]] + s[j + 1..]
  {
  }

  /** Two permutations of each other stay so once the last element of one and a matching element of the other are dropped. */
  lemma RemoveMatching<T>(a: seq<T>, b: seq<T>, j: nat)
    requires multiset(a) == multiset(b) && a != []
    requires j < |b| && b[j] == a[|a| - 1]
    ensures multiset(a[..|a| - 1]) == multiset(b[..j] + b[j + 1..])
  {
    var n, x := |a| - 1, a[|a| - 1];
    SplitAt(b, j);
    SplitLast(a);
    assert multiset(b) == multiset(b[..j]) + multiset{x} + multiset(b[j + 1..]);
    assert multiset(a) == multiset(a[..n]) + multiset{x};
    MultisetCancel(multiset(a[..n]), multiset(b[..j] + b[j + 1..]), x);
  }

  lemma MultisetCancel<T>(p: multiset<T>, q: multiset<T>, x: T)
    requires p + multiset{x} == q + multiset{x}
    ensures p == q
  {
    forall y ensures p[y] == q[y] {
      assert (p + multiset{x})[y] == (q + multiset{x})[y];
    }
  }

  /** `p` is the first `|p|` elements of `s`. */
  ghost predicate IsPrefix<T>(p: seq<T>, s: seq<T>)
  {
    |p| <= |s| && s[..|p|] == p
  }

  lemma PrefixSelf<T>(s: seq<T>)
    ensures IsPrefix(s, s)
  {
    assert s[..|s|] == s;
  }

  /** A prefix of `a` is a prefix of `a + b`. */
  lemma PrefixConcat<T>(p: seq<T>, a: seq<T>, b: seq<T>)
    requires IsPrefix(p, a)
    ensures IsPrefix(p, a + b)
  {
    assert (a + b)[..|p|] == a[..|p|];
  }

  /** Two distinct sequences with no element in common concatenate to a distinct sequence. */
  lemma DistinctConcat<T>(a: seq<T>, b: seq<T>)
    requires Distinct(a) && Distinct(b)
    requires forall i, j :: 0 <= i < |a| && 0 <= j < |b| ==> a[i] != b[j]
    ensures Distinct(a + b)
  {
    forall i, j | 0 <= i < j < |a + b| ensures (a + b)[i] != (a + b)[j] {
      if j < |a| {
        assert (a + b)[i] == a[i] && (a + b)[j] == a[j];
      } else if i < |a| {
        assert (a + b)[i] == a[i] && (a + b)[j] == b[j - |a|];
      } else {
        assert (a + b)[i] == b[i - |a|] && (a + b)[j] == b[j - |a|];
      }
    }
  }

  /** Filters with predicates that agree give the same result. */
  lemma {:induction false} FilterCongruent<T(!new)>(s: seq<T>, p: T -> bool, q: T -> bool)
    requires forall x :: p(x) == q(x)
    ensures Filter(s, p) == Filter(s, q)
    decreases |s|
  {
    if s != [] {
      FilterCongruent(s[..|s| - 1], p, q);
    }
  }

  /** The largest element, 0 for the empty sequence. */
  function MaxOf(ds: seq<nat>): nat
  {
    if ds == [] then 0
    else
      var m, k := MaxOf(ds[..|ds| - 1]), ds[|ds| - 1];
      if m < k then k else m
  }

  /** Every element is at most the largest one. */
  lemma {:induction false} MaxOfBound(ds: seq<nat>, i: nat)
    requires i < |ds|
    ensures ds[i] <= MaxOf(ds)
    decreases |ds|
  {
    if i < |ds| - 1 {
      assert ds[..|ds| - 1][i] == ds[i];
      MaxOfBound(ds[..|ds| - 1], i);
    }
  }

  /** A non-zero largest element is one of the elements. */
  lemma {:induction false} MaxOfAttained(ds: seq<nat>)
    requires MaxOf(ds) > 0
    ensures exists i :: 0 <= i < |ds| && ds[i] == MaxOf(ds)
    decreases |ds|
  {
    var n := |ds| - 1;
    var m := MaxOf(ds[..n]);
    if m >= ds[n] {
      MaxOfAttained(ds[..n]);
      var i :| 0 <= i < n && ds[..n][i] == m;
      assert ds[i] == MaxOf(ds);
    } else {
      assert ds[n] == MaxOf(ds);
    }
  }
}
