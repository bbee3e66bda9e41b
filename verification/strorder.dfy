/** Python's ordering of `str` values: lexicographic by code point, a proper
    prefix sorting first. Dates (`YYYYDDD` julian codes) and file paths are
    compared this way by `sorted`, `list.sort` and `np.argsort`. */
module StrOrder {

  import opened Sorting

  /** `a <= b` on Python strings. */
  predicate StrLe(a: string, b: string)
    decreases |a|
  {
    |a| == 0 || (|b| > 0 && (a[0] < b[0] || (a[0] == b[0] && StrLe(a[1..], b[1..]))))
  }

  /** `a < b` on Python strings. */
  predicate StrLt(a: string, b: string) {
    StrLe(a, b) && a != b
  }

  lemma {:induction false} StrLeRefl(a: string)
    ensures StrLe(a, a)
    decreases |a|
  {
    if |a| > 0 {
      StrLeRefl(a[1..]);
    }
  }

  lemma {:induction false} StrLeTotal(a: string, b: string)
    ensures StrLe(a, b) || StrLe(b, a)
    decreases |a|
  {
    if |a| > 0 && |b| > 0 && a[0] == b[0] {
      StrLeTotal(a[1..], b[1..]);
    }
  }

  lemma {:induction false} StrLeAntisym(a: string, b: string)
    requires StrLe(a, b) && StrLe(b, a)
    ensures a == b
    decreases |a|
  {
    if |a| > 0 {
      StrLeAntisym(a[1..], b[1..]);
      assert a == [a[0]] + a[1..];
      assert b == [b[0]] + b[1..];
    }
  }

  lemma {:induction false} StrLeTrans(a: string, b: string, c: string)
    requires StrLe(a, b) && StrLe(b, c)
    ensures StrLe(a, c)
    decreases |a|
  {
    if |a| > 0 && a[0] == b[0] && b[0] == c[0] {
      StrLeTrans(a[1..], b[1..], c[1..]);
    }
  }

  /** `not (a <= b)` means `b < a`. */
  lemma StrNotLe(a: string, b: string)
    requires !StrLe(a, b)
    ensures StrLt(b, a)
  {
    StrLeTotal(a, b);
    if b == a {
      StrLeRefl(a);
    }
  }

  /** Python's `<=` on strings is a total order. */
  lemma StrLeIsOrder()
    ensures TotalPreorder(StrLe) && Antisymmetric(StrLe)
  {
    forall a, b ensures StrLe(a, b) || StrLe(b, a) { StrLeTotal(a, b); }
    forall a, b, c | StrLe(a, b) && StrLe(b, c) ensures StrLe(a, c) { StrLeTrans(a, b, c); }
    forall a, b | StrLe(a, b) && StrLe(b, a) ensures a == b { StrLeAntisym(a, b); }
  }

  /** `sorted(s)` for a list of strings. */
  function SortStrings(s: seq<string>): (r: seq<string>)
    ensures |r| == |s|
    ensures multiset(r) == multiset(s)
    ensures Sorted(r, StrLe)
  {
    StrLeIsOrder();
    SortBy(s, StrLe)
  }

  /** Sorting is the only way to order a list of strings: any sorted
      permutation of `s` is `sorted(s)`. */
  lemma SortStringsUnique(s: seq<string>, t: seq<string>)
    requires multiset(t) == multiset(s) && Sorted(t, StrLe)
    ensures t == SortStrings(s)
  {
    StrLeIsOrder();
    SortedUnique(t, SortStrings(s), StrLe);
  }
}
