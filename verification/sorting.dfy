/** Sorting as Python and NumPy do it, over an explicit comparison `le`
    (Python's `<=` for the element type). The sort is insertion sort; any
    correct sort gives the same result, because a sorted permutation is unique
    for an antisymmetric order (`SortedUnique`). */
module Sorting {

  ghost predicate Total<T(!new)>(le: (T, T) -> bool) {
    forall a, b :: le(a, b) || le(b, a)
  }

  ghost predicate Transitive<T(!new)>(le: (T, T) -> bool) {
    forall a, b, c :: le(a, b) && le(b, c) ==> le(a, c)
  }

  ghost predicate Antisymmetric<T(!new)>(le: (T, T) -> bool) {
    forall a, b :: le(a, b) && le(b, a) ==> a == b
  }

  ghost predicate TotalPreorder<T(!new)>(le: (T, T) -> bool) {
    Total(le) && Transitive(le)
  }

  /** Every earlier element is `<=` every later one. */
  ghost predicate Sorted<T(!new)>(s: seq<T>, le: (T, T) -> bool) {
    forall i, j :: 0 <= i < j < |s| ==> le(s[i], s[j])
  }

  /** Element-wise image of a sequence. */
  function Map<A, B>(f: A -> B, s: seq<A>): (r: seq<B>)
    ensures |r| == |s|
  {
    seq(|s|, i requires 0 <= i < |s| => f(s[i]))
  }

  /** Python's `zip` of two equally long lists. */
  function Zip<A, B>(a: seq<A>, b: seq<B>): (r: seq<(A, B)>)
    requires |a| == |b|
    ensures |r| == |a|
    ensures forall i :: 0 <= i < |a| ==> r[i] == (a[i], b[i])
  {
    seq(|a|, i requires 0 <= i < |a| => (a[i], b[i]))
  }

  function Fst<A, B>(p: (A, B)): A { p.0 }

  /** The keys of a zip are its first argument. */
  lemma ZipKeys<A, B>(a: seq<A>, b: seq<B>)
    requires |a| == |b|
    ensures Map(Fst, Zip(a, b)) == a
  {
    var z := Zip(a, b);
    assert forall i :: 0 <= i < |a| ==> Map(Fst, z)[i] == Fst(z[i]) == a[i];
  }

  /** Projecting the keys position by position. */
  lemma FstAt<A, B>(pairs: seq<(A, B)>, keys: seq<A>)
    requires Map(Fst, pairs) == keys
    ensures |pairs| == |keys|
    ensures forall i :: 0 <= i < |pairs| ==> pairs[i].0 == keys[i]
  {
    assert forall i :: 0 <= i < |pairs| ==> Map(Fst, pairs)[i] == Fst(pairs[i]);
  }

  function Snd<A, B>(p: (A, B)): B { p.1 }

  /** Inserts `x` in front of the first element it is `<=` to. */
  function Insert<T(!new)>(x: T, s: seq<T>, le: (T, T) -> bool): (r: seq<T>)
    requires TotalPreorder(le)
    requires Sorted(s, le)
    ensures |r| == |s| + 1
    ensures multiset(r) == multiset(s) + multiset{x}
    ensures Sorted(r, le)
  {
    if |s| == 0 then [x]
    else if le(x, s[0]) then
      SortedConsLe(x, s, le);
      [x] + s
    else
      SortedTail(s, le);
      var rest := Insert(x, s[1..], le);
      InsertHeadBound(x, s, rest, le);
      SortedCons(s[0], rest, le);
      assert s == [s[0]] + s[1..];
      [s[0]] + rest
  }

  /** An element `<=` everything of a sorted sequence can go in front. */
  lemma SortedCons<T(!new)>(h: T, s: seq<T>, le: (T, T) -> bool)
    requires Sorted(s, le) && forall k :: 0 <= k < |s| ==> le(h, s[k])
    ensures Sorted([h] + s, le)
  {
    forall i, j | 0 <= i < j < |s| + 1
      ensures le(([h] + s)[i], ([h] + s)[j])
    {
      if i > 0 {
        assert ([h] + s)[i] == s[i - 1];
      }
      assert ([h] + s)[j] == s[j - 1];
    }
  }

  /** An element `<=` the head of a sorted sequence can go in front. */
  lemma SortedConsLe<T(!new)>(x: T, s: seq<T>, le: (T, T) -> bool)
    requires TotalPreorder(le) && Sorted(s, le) && |s| > 0 && le(x, s[0])
    ensures Sorted([x] + s, le)
  {
    forall k | 0 <= k < |s|
      ensures le(x, s[k])
    {
      if k > 0 {
        assert le(s[0], s[k]);
      }
    }
    SortedCons(x, s, le);
  }

  /** The head of a sorted sequence that `x` does not precede is `<=` every
      element of the tail with `x` inserted. */
  lemma InsertHeadBound<T(!new)>(x: T, s: seq<T>, rest: seq<T>, le: (T, T) -> bool)
    requires TotalPreorder(le) && Sorted(s, le) && |s| > 0 && !le(x, s[0])
    requires multiset(rest) == multiset(s[1..]) + multiset{x}
    ensures forall k :: 0 <= k < |rest| ==> le(s[0], rest[k])
  {
    forall k | 0 <= k < |rest|
      ensures le(s[0], rest[k])
    {
      assert rest[k] in multiset(rest);
      if rest[k] != x {
        assert rest[k] in multiset(s[1..]);
        var m :| 0 <= m < |s[1..]| && s[1..][m] == rest[k];
        assert s[1..][m] == s[m + 1];
      }
    }
  }

  /** `sorted(s)` with the comparison `le`. */
  function SortBy<T(!new)>(s: seq<T>, le: (T, T) -> bool): (r: seq<T>)
    requires TotalPreorder(le)
    ensures |r| == |s|
    ensures multiset(r) == multiset(s)
    ensures Sorted(r, le)
  {
    if |s| == 0 then []
    else
      assert s == [s[0]] + s[1..];
      Insert(s[0], SortBy(s[1..], le), le)
  }

  lemma SortedTail<T(!new)>(s: seq<T>, le: (T, T) -> bool)
    requires |s| > 0 && Sorted(s, le)
    ensures Sorted(s[1..], le)
  {
    forall i, j | 0 <= i < j < |s| - 1
      ensures le(s[1..][i], s[1..][j])
    {
      assert s[1..][i] == s[i + 1] && s[1..][j] == s[j + 1];
    }
  }

  /** The first element of a sorted sequence is `<=` every element. */
  lemma SortedHead<T(!new)>(s: seq<T>, le: (T, T) -> bool, k: nat)
    requires Sorted(s, le) && 0 < k < |s|
    ensures le(s[0], s[k])
  {
  }

  /** Two sorted sequences with the same elements are the same sequence. */
  lemma {:induction false} SortedUnique<T(!new)>(a: seq<T>, b: seq<T>, le: (T, T) -> bool)
    requires Antisymmetric(le)
    requires Sorted(a, le) && Sorted(b, le)
    requires multiset(a) == multiset(b)
    ensures a == b
    decreases |a|
  {
    assert |a| == |multiset(a)| == |multiset(b)| == |b|;
    if |a| > 0 {
      assert a == [a[0]] + a[1..];
      assert b == [b[0]] + b[1..];
      assert a[0] in multiset(b);
      assert b[0] in multiset(a);
      var k :| 0 <= k < |b| && b[k] == a[0];
      var m :| 0 <= m < |a| && a[m] == b[0];
      if k > 0 && m > 0 {
        SortedHead(b, le, k);
        SortedHead(a, le, m);
      }
      assert a[0] == b[0];
      MultisetTail(a);
      MultisetTail(b);
      SortedTail(a, le);
      SortedTail(b, le);
      SortedUnique(a[1..], b[1..], le);
    }
  }

  lemma MultisetTail<T>(a: seq<T>)
    requires |a| > 0
    ensures multiset(a[1..]) == multiset(a) - multiset{a[0]}
  {
    assert a == [a[0]] + a[1..];
  }

  /** Removing the element at `k` removes one occurrence of it. */
  lemma RemoveAtMultiset<T>(t: seq<T>, k: nat)
    requires k < |t|
    ensures multiset(t[..k] + t[k+1..]) == multiset(t) - multiset{t[k]}
  {
    assert t == t[..k] + [t[k]] + t[k+1..];
  }

  /** Mapping after removing the element at `k` removes one occurrence of its image. */
  lemma MapRemoveAt<A, B>(f: A -> B, t: seq<A>, k: nat)
    requires k < |t|
    ensures multiset(Map(f, t)) == multiset(Map(f, t[..k] + t[k+1..])) + multiset{f(t[k])}
  {
    var m := Map(f, t);
    assert m == m[..k] + [m[k]] + m[k+1..];
    assert Map(f, t[..k] + t[k+1..]) == m[..k] + m[k+1..];
  }

  /** Taking the head off one permutation and a copy of it off the other
      leaves permutations of each other. */
  lemma TailPermutation<T>(s: seq<T>, t: seq<T>, k: nat)
    requires multiset(s) == multiset(t) && |s| > 0 && k < |t| && t[k] == s[0]
    ensures multiset(s[1..]) == multiset(t[..k] + t[k+1..])
  {
    RemoveAtMultiset(t, k);
    MultisetTail(s);
  }

  lemma MapHead<A, B>(f: A -> B, s: seq<A>)
    requires |s| > 0
    ensures multiset(Map(f, s)) == multiset(Map(f, s[1..])) + multiset{f(s[0])}
  {
    MapRemoveAt(f, s, 0);
    assert s[..0] + s[1..] == s[1..];
  }

  /** Mapping two permutations of each other gives permutations of each other. */
  lemma {:induction false} MapPreservesMultiset<A, B>(f: A -> B, s: seq<A>, t: seq<A>)
    requires multiset(s) == multiset(t)
    ensures multiset(Map(f, s)) == multiset(Map(f, t))
    decreases |s|
  {
    if |s| == 0 {
      assert |t| == |multiset(t)| == 0;
    } else {
      assert s[0] in multiset(t);
      var k :| 0 <= k < |t| && t[k] == s[0];
      var t' := t[..k] + t[k+1..];
      TailPermutation(s, t, k);
      MapPreservesMultiset(f, s[1..], t');
      MapRemoveAt(f, t, k);
      MapHead(f, s);
    }
  }

  /** Sorting pairs by an order that looks at the key first, then projecting
      the keys, gives the sorted keys: after `sorted(zip(keys, items))`, the
      item at position `i` carries the `i`-th smallest key. */
  lemma SortedKeysAgree<K(!new), U(!new)>(pairs: seq<(K, U)>, le: ((K, U), (K, U)) -> bool, keyLe: (K, K) -> bool)
    requires TotalPreorder(le) && TotalPreorder(keyLe) && Antisymmetric(keyLe)
    requires forall p, q :: le(p, q) ==> keyLe(p.0, q.0)
    ensures Map(Fst, SortBy(pairs, le)) == SortBy(Map(Fst, pairs), keyLe)
  {
    var sorted := SortBy(pairs, le);
    var keys := Map(Fst, sorted);
    assert Sorted(keys, keyLe) by {
      forall i, j | 0 <= i < j < |keys|
        ensures keyLe(keys[i], keys[j])
      {
        assert le(sorted[i], sorted[j]);
      }
    }
    MapPreservesMultiset(Fst, sorted, pairs);
    SortedUnique(keys, SortBy(Map(Fst, pairs), keyLe), keyLe);
  }
}
