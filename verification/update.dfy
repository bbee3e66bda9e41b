/** `ModisRawH5.update` (modape/modis/collect.py, lines 282-331): merging the
    dates already stored in the raw HDF5 file with the dates of the new
    files, placing each new file's data in its column, and re-ordering the
    columns by date.

    Every pixel row of the `data` dataset goes through the same column
    shuffle, so the model follows one row: `columns[j]` is the row's value
    in column `j`, of an arbitrary type `C`. Reading the rasters is not part
    of this model: `bands[i]` is what file `i` yields (its band, or the
    nodata value when GDAL cannot open it). */
module Update {

  import opened Results
  import opened Sorting
  import opened StrOrder
  import opened Collect

  /** The `dates` dataset and one row of the `data` dataset; both have the
      same width, as `create` and every resize keep them. */
  datatype Store<C> = Store(dates: seq<string>, columns: seq<C>)

  /** numpy refuses to copy blocks of unequal width (a ValueError), which
      happens when the file is wider than the merged date list. */
  datatype UpdateError = WidthMismatch

  // ---------------------------------------------------------------------
  // Lines 282-283: the merged date list.

  /** Positions of the stored dates the merge drops: empty entries and
      dates that come again with the new files. */
  function Dropped(dates: seq<string>, rawdates: seq<string>): set<nat> {
    set j: nat | j < |dates| && (|dates[j]| == 0 || dates[j] in rawdates)
  }

  /** Positions of the stored dates that survive the merge, in stored order. */
  function KeptStoredIndices(dates: seq<string>, rawdates: seq<string>): (r: seq<nat>)
    ensures forall k :: 0 <= k < |r| ==> r[k] < |dates| && |dates[r[k]]| > 0 && dates[r[k]] !in rawdates
    ensures forall j :: 0 <= j < |dates| && |dates[j]| > 0 && dates[j] !in rawdates ==> j in r
    ensures forall a, b :: 0 <= a < b < |r| ==> r[a] < r[b]
    ensures |r| <= |dates|
  {
    var r := KeptIndices(|dates|, Dropped(dates, rawdates));
    if |r| == 0 then r
    else
      IncreasingAtLeastIndex(r, |r| - 1);
      r
  }

  /** `dates_combined`: the surviving stored dates in stored order, then the
      new dates. */
  function Combined(dates: seq<string>, rawdates: seq<string>): (r: seq<string>)
    ensures |r| == |KeptStoredIndices(dates, rawdates)| + |rawdates|
    ensures r[|KeptStoredIndices(dates, rawdates)|..] == rawdates
    ensures forall d :: d in r <==> d in rawdates || (|d| > 0 && d in dates)
  {
    var kept := KeptStoredIndices(dates, rawdates);
    var r := Pick(dates, kept) + rawdates;
    assert r[|kept|..] == rawdates;
    assert forall d :: |d| > 0 && d in dates && d !in rawdates ==> d in r by {
      forall d | |d| > 0 && d in dates && d !in rawdates
        ensures d in r
      {
        var j :| 0 <= j < |dates| && dates[j] == d;
        var k :| 0 <= k < |kept| && kept[k] == j;
        assert r[k] == d;
      }
    }
    r
  }

  /** No stored date is listed twice, apart from the empty entries a freshly
      created file holds. */
  ghost predicate StoredDistinct(dates: seq<string>) {
    forall i, j :: 0 <= i < j < |dates| && |dates[i]| > 0 ==> dates[i] != dates[j]
  }

  /** With distinct stored and new dates, the merged list is distinct. */
  lemma CombinedDistinct(dates: seq<string>, rawdates: seq<string>)
    requires StoredDistinct(dates) && Distinct(rawdates)
    ensures Distinct(Combined(dates, rawdates))
  {
    var kept := KeptStoredIndices(dates, rawdates);
    var c := Combined(dates, rawdates);
    forall a, b | 0 <= a < b < |c|
      ensures c[a] != c[b]
    {
      if b < |kept| {
        assert kept[a] < kept[b];
      } else if a < |kept| {
        assert c[b] == rawdates[b - |kept|];
      } else {
        assert c[a] == rawdates[a - |kept|] && c[b] == rawdates[b - |kept|];
      }
    }
  }

  // ---------------------------------------------------------------------
  // `list.index`, `np.argsort`.

  /** `s.index(x)`: the first position of `x`. */
  function IndexOf<T(==)>(s: seq<T>, x: T): (r: nat)
    requires x in s
    ensures r < |s| && s[r] == x
    ensures forall k :: 0 <= k < r ==> s[k] != x
  {
    if s[0] == x then 0 else 1 + IndexOf(s[1..], x)
  }

  /** In a sequence without repeats, every entry is the first of its value. */
  lemma IndexOfDistinct<T>(s: seq<T>, k: nat)
    requires Distinct(s) && k < |s|
    ensures IndexOf(s, s[k]) == k
  {
  }

  /** `(date, position)` pairs compared as Python tuples. */
  predicate KeyIndexLe(p: (string, nat), q: (string, nat)) {
    StrLt(p.0, q.0) || (p.0 == q.0 && p.1 <= q.1)
  }

  lemma KeyIndexLeIsOrder()
    ensures TotalPreorder(KeyIndexLe)
    ensures forall p, q :: KeyIndexLe(p, q) ==> StrLe(p.0, q.0)
  {
    forall p, q
      ensures KeyIndexLe(p, q) || KeyIndexLe(q, p)
    {
      StrLeTotal(p.0, q.0);
    }
    forall p, q, r | KeyIndexLe(p, q) && KeyIndexLe(q, r)
      ensures KeyIndexLe(p, r)
    {
      if p.0 != q.0 && q.0 != r.0 {
        StrLeTrans(p.0, q.0, r.0);
        if p.0 == r.0 {
          StrLeAntisym(p.0, q.0);
        }
      } else if p.0 != q.0 || q.0 != r.0 {
        StrLeRefl(p.0);
      }
    }
    forall p: (string, nat), q: (string, nat) | KeyIndexLe(p, q)
      ensures StrLe(p.0, q.0)
    {
      StrLeRefl(p.0);
    }
  }

  /** `0, 1, …, n-1`. */
  function Range(n: nat): (r: seq<nat>)
    ensures |r| == n && forall i :: 0 <= i < n ==> r[i] == i
  {
    seq(n, i requires 0 <= i < n => i)
  }

  /** The `(key, position)` pairs in tuple order. */
  function SortedPairs(keys: seq<string>): (r: seq<(string, nat)>)
    ensures |r| == |keys|
    ensures forall k :: 0 <= k < |r| ==> r[k].1 < |keys| && keys[r[k].1] == r[k].0
    ensures forall a, b :: 0 <= a < b < |r| ==> StrLe(r[a].0, r[b].0)
    ensures multiset(Map<(string, nat), nat>(Snd, r)) == multiset(Range(|keys|))
  {
    KeyIndexLeIsOrder();
    var pairs := Zip<string, nat>(keys, Range(|keys|));
    var sorted := SortBy<(string, nat)>(pairs, KeyIndexLe);
    PairsFacts(keys, pairs, sorted);
    sorted
  }

  lemma PairsFacts(keys: seq<string>, pairs: seq<(string, nat)>, sorted: seq<(string, nat)>)
    requires |pairs| == |keys| && forall k :: 0 <= k < |keys| ==> pairs[k] == (keys[k], k)
    requires multiset(sorted) == multiset(pairs)
    ensures forall k :: 0 <= k < |sorted| ==> sorted[k].1 < |keys| && keys[sorted[k].1] == sorted[k].0
    ensures multiset(Map<(string, nat), nat>(Snd, sorted)) == multiset(Range(|keys|))
  {
    forall k | 0 <= k < |sorted|
      ensures sorted[k].1 < |keys| && keys[sorted[k].1] == sorted[k].0
    {
      assert sorted[k] in multiset(pairs);
      var j :| 0 <= j < |pairs| && pairs[j] == sorted[k];
    }
    MapPreservesMultiset<(string, nat), nat>(Snd, sorted, pairs);
    assert Map<(string, nat), nat>(Snd, pairs) == Range(|keys|);
  }

  /** `np.argsort(keys)`: a permutation of the positions that lists the keys
      in order. Equal keys keep their relative order; the merged dates are
      distinct, so the order among equals never matters here. */
  function ArgSort(keys: seq<string>): (perm: seq<nat>)
    ensures |perm| == |keys|
    ensures forall k :: 0 <= k < |perm| ==> perm[k] < |keys|
    ensures multiset(perm) == multiset(Range(|keys|))
    ensures forall a, b :: 0 <= a < b < |perm| ==> StrLe(keys[perm[a]], keys[perm[b]])
  {
    var sorted := SortedPairs(keys);
    var perm := Map<(string, nat), nat>(Snd, sorted);
    assert forall k :: 0 <= k < |perm| ==> perm[k] == Snd(sorted[k]) == sorted[k].1;
    perm
  }

  /** The keys taken in argsort order are the sorted keys (`sorted(keys)`). */
  lemma ArgSortSorts(keys: seq<string>)
    ensures Pick(keys, ArgSort(keys)) == SortStrings(keys)
  {
    var perm := ArgSort(keys);
    var at := (i: nat) => if i < |keys| then keys[i] else "";
    assert Map(at, perm) == Pick(keys, perm);
    assert Map(at, Range(|keys|)) == keys;
    MapPreservesMultiset(at, perm, Range(|keys|));
    SortStringsUnique(keys, Pick(keys, perm));
  }

  // ---------------------------------------------------------------------
  // Lines 286-326: filling the row and re-ordering it.

  /** A strictly increasing sequence of naturals has `r[j] >= j`. */
  lemma {:induction false} IncreasingAtLeastIndex(r: seq<nat>, j: nat)
    requires forall a, b :: 0 <= a < b < |r| ==> r[a] < r[b]
    requires j < |r|
    ensures r[j] >= j
  {
    if j > 0 {
      IncreasingAtLeastIndex(r, j - 1);
    }
  }

  /** The row after the resize and the block copy of lines 310-311: the
      file's own columns, then the fill value in the columns the resize
      added. */
  function Prefill<C>(columns: seq<C>, width: nat, fill: C): (r: seq<C>)
    ensures |r| == width
  {
    seq(width, j requires 0 <= j < width => if j < |columns| then columns[j] else fill)
  }

  /** Lines 314-322: `arr[..., dates_combined.index(rawdates[fix])] = read`
      for every new file, in file order. */
  function PlaceReads<C>(arr: seq<C>, combined: seq<string>, rawdates: seq<string>, bands: seq<C>, fix: nat): (r: seq<C>)
    requires |bands| == |rawdates| && fix <= |rawdates| && |arr| == |combined|
    requires forall d :: d in rawdates ==> d in combined
    ensures |r| == |arr|
    decreases |rawdates| - fix
  {
    if fix == |rawdates| then arr
    else PlaceReads(arr[IndexOf(combined, rawdates[fix]) := bands[fix]], combined, rawdates, bands, fix + 1)
  }

  /** With distinct new dates behind the surviving stored ones, file `fix`
      lands in column `|kept| + fix`, and the stored part stays. */
  lemma {:induction false} PlaceReadsColumns<C>(arr: seq<C>, combined: seq<string>, rawdates: seq<string>, bands: seq<C>, kept: nat, fix: nat)
    requires |bands| == |rawdates| && fix <= |rawdates| && |arr| == |combined|
    requires Distinct(rawdates)
    requires kept + |rawdates| == |combined| && combined[kept..] == rawdates
    requires forall j :: 0 <= j < kept ==> combined[j] !in rawdates
    ensures forall d :: d in rawdates ==> d in combined
    ensures var r := PlaceReads(arr, combined, rawdates, bands, fix);
      forall j :: 0 <= j < |arr| ==> r[j] == (if kept + fix <= j then bands[j - kept] else arr[j])
    decreases |rawdates| - fix
  {
    assert forall i :: 0 <= i < |rawdates| ==> combined[kept + i] == rawdates[i];
    if fix < |rawdates| {
      var at := IndexOf(combined, rawdates[fix]);
      assert at == kept + fix by {
        assert combined[kept + fix] == rawdates[fix];
        forall k | 0 <= k < kept + fix
          ensures combined[k] != rawdates[fix]
        {
          if k >= kept {
            assert combined[k] == rawdates[k - kept];
          }
        }
      }
      var arr' := arr[at := bands[fix]];
      PlaceReadsColumns(arr', combined, rawdates, bands, kept, fix + 1);
      var r := PlaceReads(arr, combined, rawdates, bands, fix);
      assert r == PlaceReads(arr', combined, rawdates, bands, fix + 1);
      forall j | 0 <= j < |arr|
        ensures r[j] == (if kept + fix <= j then bands[j - kept] else arr[j])
      {
        if j == kept + fix {
          assert r[j] == arr'[j];
        }
      }
    }
  }

  /** `update()` as written: the surviving stored columns are copied into
      the first columns of the merged row, whatever their stored position. */
  function UpdateAsWritten<C>(store: Store<C>, rawdates: seq<string>, bands: seq<C>, fill: C): (r: Result<Store<C>, UpdateError>)
    requires |store.columns| == |store.dates| && |bands| == |rawdates| && Distinct(rawdates)
    ensures r.Err? <==> |store.dates| > |Combined(store.dates, rawdates)|
    ensures r.Ok? ==> r.value.dates == SortStrings(Combined(store.dates, rawdates))
    ensures r.Ok? ==> |r.value.columns| == |r.value.dates|
  {
    var combined := Combined(store.dates, rawdates);
    if |store.dates| > |combined| then Err(WidthMismatch)
    else
      var arr := PlaceReads(Prefill(store.columns, |combined|, fill), combined, rawdates, bands, 0);
      Ok(Store(SortStrings(combined), Pick(arr, ArgSort(combined))))
  }

  /** The same merge with each surviving stored column taken from the
      position of its own date. */
  function UpdateCorrected<C>(store: Store<C>, rawdates: seq<string>, bands: seq<C>): (r: Result<Store<C>, UpdateError>)
    requires |store.columns| == |store.dates| && |bands| == |rawdates| && Distinct(rawdates)
    ensures r.Err? <==> |store.dates| > |Combined(store.dates, rawdates)|
    ensures r.Ok? ==> r.value.dates == SortStrings(Combined(store.dates, rawdates))
    ensures r.Ok? ==> |r.value.columns| == |r.value.dates|
  {
    var combined := Combined(store.dates, rawdates);
    if |store.dates| > |combined| then Err(WidthMismatch)
    else
      var arr := Pick(store.columns, KeptStoredIndices(store.dates, rawdates)) + bands;
      Ok(Store(SortStrings(combined), Pick(arr, ArgSort(combined))))
  }

  // ---------------------------------------------------------------------
  // What the update promises: every column holds the data of its date.

  /** The data that belongs under date `d`: the new file's read when `d`
      is a new date, otherwise the stored column of `d`. */
  function Expected<C>(store: Store<C>, rawdates: seq<string>, bands: seq<C>, d: string): C
    requires |store.columns| == |store.dates| && |bands| == |rawdates|
    requires d in rawdates || d in store.dates
  {
    if d in rawdates then bands[IndexOf(rawdates, d)] else store.columns[IndexOf(store.dates, d)]
  }

  /** Every column of `out` holds the data belonging to its date. */
  ghost predicate Corresponds<C>(out: Store<C>, store: Store<C>, rawdates: seq<string>, bands: seq<C>)
    requires |store.columns| == |store.dates| && |bands| == |rawdates|
  {
    |out.dates| == |out.columns| &&
    forall k :: 0 <= k < |out.dates| ==>
      (out.dates[k] in rawdates || out.dates[k] in store.dates) &&
      out.columns[k] == Expected(store, rawdates, bands, out.dates[k])
  }

  /** A row whose columns match the merged dates still matches them after
      both are put in date order. */
  lemma SortKeepsCorrespondence<C>(arr: seq<C>, combined: seq<string>, store: Store<C>, rawdates: seq<string>, bands: seq<C>)
    requires |store.columns| == |store.dates| && |bands| == |rawdates|
    requires |arr| == |combined|
    requires forall j :: 0 <= j < |combined| ==>
      (combined[j] in rawdates || combined[j] in store.dates) &&
      arr[j] == Expected(store, rawdates, bands, combined[j])
    ensures Corresponds(Store(SortStrings(combined), Pick(arr, ArgSort(combined))), store, rawdates, bands)
  {
    var perm := ArgSort(combined);
    ArgSortSorts(combined);
    assert forall k :: 0 <= k < |perm| ==> SortStrings(combined)[k] == combined[perm[k]];
  }

  /** A stored date that is listed once is found at its own position. */
  lemma StoredIndexOf(dates: seq<string>, j: nat)
    requires StoredDistinct(dates) && j < |dates| && |dates[j]| > 0
    ensures IndexOf(dates, dates[j]) == j
  {
  }

  /** The merged list before sorting: which column holds which date. */
  lemma CombinedAt(dates: seq<string>, rawdates: seq<string>, j: nat)
    requires j < |Combined(dates, rawdates)|
    ensures var kept := KeptStoredIndices(dates, rawdates);
      Combined(dates, rawdates)[j] == if j < |kept| then dates[kept[j]] else rawdates[j - |kept|]
  {
    var kept := KeptStoredIndices(dates, rawdates);
    if j >= |kept| {
      assert Combined(dates, rawdates)[|kept|..][j - |kept|] == rawdates[j - |kept|];
    }
  }

  /** Column `j` of the corrected row, before sorting, holds the data of
      merged date `j`. */
  lemma CorrectedColumn<C>(store: Store<C>, rawdates: seq<string>, bands: seq<C>, j: nat)
    requires |store.columns| == |store.dates| && |bands| == |rawdates| && Distinct(rawdates)
    requires StoredDistinct(store.dates)
    requires j < |Combined(store.dates, rawdates)|
    ensures var combined := Combined(store.dates, rawdates);
      var arr := Pick(store.columns, KeptStoredIndices(store.dates, rawdates)) + bands;
      && (combined[j] in rawdates || combined[j] in store.dates)
      && arr[j] == Expected(store, rawdates, bands, combined[j])
  {
    var combined := Combined(store.dates, rawdates);
    var kept := KeptStoredIndices(store.dates, rawdates);
    var arr := Pick(store.columns, kept) + bands;
    CombinedAt(store.dates, rawdates, j);
    if j < |kept| {
      var i := kept[j];
      assert combined[j] == store.dates[i] && arr[j] == store.columns[i];
      assert store.dates[i] !in rawdates;
      StoredIndexOf(store.dates, i);
    } else {
      var i := j - |kept|;
      assert combined[j] == rawdates[i] && arr[j] == bands[i];
      IndexOfDistinct(rawdates, i);
    }
  }

  /** The corrected update puts every column under its own date. */
  lemma UpdateCorrectedCorresponds<C>(store: Store<C>, rawdates: seq<string>, bands: seq<C>)
    requires |store.columns| == |store.dates| && |bands| == |rawdates| && Distinct(rawdates)
    requires StoredDistinct(store.dates)
    ensures var r := UpdateCorrected(store, rawdates, bands);
      r.Ok? ==> Corresponds(r.value, store, rawdates, bands)
  {
    var combined := Combined(store.dates, rawdates);
    if |store.dates| <= |combined| {
      var arr := Pick(store.columns, KeptStoredIndices(store.dates, rawdates)) + bands;
      forall j | 0 <= j < |combined|
        ensures (combined[j] in rawdates || combined[j] in store.dates)
        ensures arr[j] == Expected(store, rawdates, bands, combined[j])
      {
        CorrectedColumn(store, rawdates, bands, j);
      }
      SortKeepsCorrespondence(arr, combined, store, rawdates, bands);
    }
  }

  /** The merged list as `PlaceReadsColumns` needs it: the kept stored
      dates, none of them new, then the new dates. */
  lemma CombinedLayout(dates: seq<string>, rawdates: seq<string>)
    ensures var combined := Combined(dates, rawdates);
      var kept := |KeptStoredIndices(dates, rawdates)|;
      && kept + |rawdates| == |combined| && combined[kept..] == rawdates
      && forall i :: 0 <= i < kept ==> combined[i] !in rawdates
  {
    var kept := KeptStoredIndices(dates, rawdates);
    forall i | 0 <= i < |kept|
      ensures Combined(dates, rawdates)[i] !in rawdates
    {
      CombinedAt(dates, rawdates, i);
    }
  }

  /** Column `j` of the row as written, before sorting: the stored column
      `j` for the surviving stored dates, then the new bands. */
  lemma AsWrittenColumn<C>(store: Store<C>, rawdates: seq<string>, bands: seq<C>, fill: C, j: nat)
    requires |store.columns| == |store.dates| && |bands| == |rawdates| && Distinct(rawdates)
    requires |store.dates| <= |Combined(store.dates, rawdates)|
    requires j < |Combined(store.dates, rawdates)|
    ensures var combined := Combined(store.dates, rawdates);
      var kept := |KeptStoredIndices(store.dates, rawdates)|;
      var arr := PlaceReads(Prefill(store.columns, |combined|, fill), combined, rawdates, bands, 0);
      arr[j] == if j < kept then store.columns[j] else bands[j - kept]
  {
    var combined := Combined(store.dates, rawdates);
    var kept := |KeptStoredIndices(store.dates, rawdates)|;
    var pre := Prefill(store.columns, |combined|, fill);
    CombinedLayout(store.dates, rawdates);
    PlaceReadsColumns(pre, combined, rawdates, bands, kept, 0);
  }

  /** The update as written is right when the surviving stored dates are
      the leading entries of the stored list; this covers the first ingest
      into a fresh file and an update that brings only new dates. */
  lemma UpdateAsWrittenCorrespondsWhenLeading<C>(store: Store<C>, rawdates: seq<string>, bands: seq<C>, fill: C)
    requires |store.columns| == |store.dates| && |bands| == |rawdates| && Distinct(rawdates)
    requires StoredDistinct(store.dates)
    requires var kept := KeptStoredIndices(store.dates, rawdates);
      forall j :: 0 <= j < |kept| ==> kept[j] == j
    ensures var r := UpdateAsWritten(store, rawdates, bands, fill);
      r.Ok? ==> Corresponds(r.value, store, rawdates, bands)
  {
    var combined := Combined(store.dates, rawdates);
    var kept := KeptStoredIndices(store.dates, rawdates);
    if |store.dates| <= |combined| {
      var arr := PlaceReads(Prefill(store.columns, |combined|, fill), combined, rawdates, bands, 0);
      forall j | 0 <= j < |combined|
        ensures (combined[j] in rawdates || combined[j] in store.dates)
        ensures arr[j] == Expected(store, rawdates, bands, combined[j])
      {
        LeadingColumn(store, rawdates, bands, fill, j);
      }
      SortKeepsCorrespondence(arr, combined, store, rawdates, bands);
    }
  }

  /** One column of `UpdateAsWrittenCorrespondsWhenLeading`: when surviving
      stored date `j` sits at stored position `j`, the row as written and
      the corrected row agree in column `j`. */
  lemma LeadingColumn<C>(store: Store<C>, rawdates: seq<string>, bands: seq<C>, fill: C, j: nat)
    requires |store.columns| == |store.dates| && |bands| == |rawdates| && Distinct(rawdates)
    requires StoredDistinct(store.dates)
    requires var kept := KeptStoredIndices(store.dates, rawdates);
      forall j :: 0 <= j < |kept| ==> kept[j] == j
    requires |store.dates| <= |Combined(store.dates, rawdates)|
    requires j < |Combined(store.dates, rawdates)|
    ensures var combined := Combined(store.dates, rawdates);
      var arr := PlaceReads(Prefill(store.columns, |combined|, fill), combined, rawdates, bands, 0);
      && (combined[j] in rawdates || combined[j] in store.dates)
      && arr[j] == Expected(store, rawdates, bands, combined[j])
  {
    var kept := KeptStoredIndices(store.dates, rawdates);
    AsWrittenColumn(store, rawdates, bands, fill, j);
    CorrectedColumn(store, rawdates, bands, j);
    if j < |kept| {
      assert Pick(store.columns, kept)[j] == store.columns[kept[j]];
    }
  }

  // ---------------------------------------------------------------------
  // Lines 330-331: the written date list.

  /** A permutation of a list without repeats has none either. */
  lemma DistinctPermutation(a: seq<string>, b: seq<string>)
    requires multiset(a) == multiset(b) && Distinct(a)
    ensures Distinct(b)
  {
    assert (set x | x in a) == (set x | x in b) by {
      forall x ensures x in a <==> x in b {
        assert x in a <==> x in multiset(a);
        assert x in b <==> x in multiset(b);
      }
    }
    assert |a| == |multiset(a)| == |multiset(b)| == |b|;
    CardDistinct(a);
    CardDistinct(b);
  }

  /** The dates written back are sorted, hold exactly the non-empty stored
      dates and the new dates, and repeat none when neither list did. */
  lemma MergedDates(dates: seq<string>, rawdates: seq<string>)
    ensures var merged := SortStrings(Combined(dates, rawdates));
      && Sorted(merged, StrLe)
      && (forall d :: d in merged <==> d in rawdates || (|d| > 0 && d in dates))
    ensures StoredDistinct(dates) && Distinct(rawdates) ==> Distinct(SortStrings(Combined(dates, rawdates)))
  {
    var combined := Combined(dates, rawdates);
    var merged := SortStrings(combined);
    forall d
      ensures d in merged <==> d in combined
    {
      assert d in merged <==> d in multiset(merged);
      assert d in combined <==> d in multiset(combined);
    }
    if StoredDistinct(dates) && Distinct(rawdates) {
      CombinedDistinct(dates, rawdates);
      DistinctPermutation(combined, merged);
    }
  }

  /** The first ingest into a freshly created file, whose `dates` entries are
      all empty, places every band under its date. */
  lemma FirstIngestCorresponds<C>(store: Store<C>, rawdates: seq<string>, bands: seq<C>, fill: C)
    requires |store.columns| == |store.dates| && |bands| == |rawdates| && Distinct(rawdates)
    requires forall j :: 0 <= j < |store.dates| ==> store.dates[j] == ""
    ensures var r := UpdateAsWritten(store, rawdates, bands, fill);
      r.Ok? ==> Corresponds(r.value, store, rawdates, bands)
  {
    DropAllIndices(|store.dates|, Dropped(store.dates, rawdates));
    UpdateAsWrittenCorrespondsWhenLeading(store, rawdates, bands, fill);
  }

  lemma {:induction false} DropAllIndices(n: nat, pop: set<nat>)
    requires forall i :: 0 <= i < n ==> i in pop
    ensures KeptIndices(n, pop) == []
  {
    if n > 0 {
      DropAllIndices(n - 1, pop);
    }
  }

  /** An update that brings only dates the file does not hold yet places
      every column under its date. */
  lemma NewDatesCorrespond<C>(store: Store<C>, rawdates: seq<string>, bands: seq<C>, fill: C)
    requires |store.columns| == |store.dates| && |bands| == |rawdates| && Distinct(rawdates)
    requires StoredDistinct(store.dates)
    requires forall j :: 0 <= j < |store.dates| ==> |store.dates[j]| > 0 && store.dates[j] !in rawdates
    ensures var r := UpdateAsWritten(store, rawdates, bands, fill);
      r.Ok? ==> Corresponds(r.value, store, rawdates, bands)
  {
    KeepAllIndices(|store.dates|, Dropped(store.dates, rawdates));
    UpdateAsWrittenCorrespondsWhenLeading(store, rawdates, bands, fill);
  }

  lemma ReingestCombined(a: string, b: string)
    requires |b| > 0 && a != b
    ensures KeptStoredIndices([a, b], [a]) == [1]
    ensures Combined([a, b], [a]) == [b, a]
  {
    ReingestKept(a, b);
    CombinedUnfold([a, b], [a]);
    PickSecond(KeptStoredIndices([a, b], [a]), a, b);
  }

  lemma ReingestKept(a: string, b: string)
    requires |b| > 0 && a != b
    ensures KeptStoredIndices([a, b], [a]) == [1]
  {
    DroppedFirst(a, b);
    KeptSecond();
  }

  lemma CombinedUnfold(dates: seq<string>, rawdates: seq<string>)
    ensures Combined(dates, rawdates) == Pick(dates, KeptStoredIndices(dates, rawdates)) + rawdates
  {
  }

  lemma PickSecond(kept: seq<nat>, a: string, b: string)
    requires kept == [1]
    ensures Pick([a, b], kept) + [a] == [b, a]
  {
    PickSwap([a, b]);
  }

  lemma DroppedFirst(a: string, b: string)
    requires |b| > 0 && a != b
    ensures Dropped([a, b], [a]) == {0}
  {
    forall j: nat
      ensures j in Dropped([a, b], [a]) <==> j == 0
    {
      if j == 1 {
        assert [a, b][1] == b;
      }
    }
  }

  lemma KeptSecond()
    ensures KeptIndices(2, {0}) == [1]
  {
    assert KeptIndices(1, {0}) == [];
  }

  lemma PickSwap<T>(s: seq<T>)
    requires |s| == 2
    ensures Pick(s, [1, 0]) == [s[1], s[0]]
    ensures Pick(s, [1]) == [s[1]]
  {
  }

  /** Two keys out of order are swapped by argsort. */
  lemma ArgSortSwap(keys: seq<string>)
    requires |keys| == 2 && !StrLe(keys[0], keys[1])
    ensures ArgSort(keys) == [1, 0]
  {
    var perm := ArgSort(keys);
    assert Range(2) == [0, 1];
    PermutationOfTwo(perm);
    assert StrLe(keys[perm[0]], keys[perm[1]]);
  }

  /** The two orders of `0, 1`. */
  lemma PermutationOfTwo(perm: seq<nat>)
    requires |perm| == 2 && multiset(perm) == multiset([0, 1])
    ensures perm == [0, 1] || perm == [1, 0]
  {
    assert perm == [perm[0], perm[1]];
    assert multiset(perm) == multiset{perm[0], perm[1]};
    assert perm[0] in multiset([0, 1]) && perm[1] in multiset([0, 1]);
  }

  /** Two strings out of order are swapped by `sorted`. */
  lemma SortSwap(a: string, b: string)
    requires StrLt(a, b)
    ensures SortStrings([b, a]) == [a, b]
  {
    var t := [a, b];
    assert Sorted(t, StrLe);
    assert multiset(t) == multiset([b, a]);
    SortStringsUnique([b, a], t);
  }

  lemma ReingestArgSort(a: string, b: string)
    requires StrLt(a, b)
    ensures ArgSort([b, a]) == [1, 0]
  {
    assert !StrLe(b, a) by {
      if StrLe(b, a) {
        StrLeAntisym(a, b);
      }
    }
    ArgSortSwap([b, a]);
  }

  /** The new band for `a` lands in column 1 of the merged row `[b, a]`. */
  lemma ReingestPlaced<C>(a: string, b: string, x: C, y: C, z: C, fill: C)
    requires a != b
    ensures PlaceReads(Prefill([x, y], 2, fill), [b, a], [a], [z], 0) == [x, z]
  {
    var combined := [b, a];
    assert IndexOf(combined, a) == 1;
    assert Prefill([x, y], 2, fill) == [x, y];
    assert PlaceReads([x, y], combined, [a], [z], 0) == PlaceReads([x, z], combined, [a], [z], 1);
  }

  /** The pieces both updates compute on the re-ingest example. */
  lemma ReingestParts(a: string, b: string)
    requires StrLt(a, b) && |b| > 0
    ensures KeptStoredIndices([a, b], [a]) == [1]
    ensures Combined([a, b], [a]) == [b, a]
    ensures ArgSort([b, a]) == [1, 0]
    ensures SortStrings([b, a]) == [a, b]
  {
    ReingestCombined(a, b);
    ReingestArgSort(a, b);
    SortSwap(a, b);
  }

  /** `UpdateAsWritten` when the widths agree, unfolded. */
  lemma AsWrittenUnfold<C>(store: Store<C>, rawdates: seq<string>, bands: seq<C>, fill: C)
    requires |store.columns| == |store.dates| && |bands| == |rawdates| && Distinct(rawdates)
    requires |store.dates| <= |Combined(store.dates, rawdates)|
    ensures var combined := Combined(store.dates, rawdates);
      var arr := PlaceReads(Prefill(store.columns, |combined|, fill), combined, rawdates, bands, 0);
      UpdateAsWritten(store, rawdates, bands, fill) == Ok(Store(SortStrings(combined), Pick(arr, ArgSort(combined))))
  {
  }

  /** `UpdateCorrected` when the widths agree, unfolded. */
  lemma CorrectedUnfold<C>(store: Store<C>, rawdates: seq<string>, bands: seq<C>)
    requires |store.columns| == |store.dates| && |bands| == |rawdates| && Distinct(rawdates)
    requires |store.dates| <= |Combined(store.dates, rawdates)|
    ensures var combined := Combined(store.dates, rawdates);
      var kept := KeptStoredIndices(store.dates, rawdates);
      UpdateCorrected(store, rawdates, bands) == Ok(Store(SortStrings(combined), Pick(Pick(store.columns, kept) + bands, ArgSort(combined))))
  {
  }

  /** The row as written on the re-ingest example, sorted. */
  lemma AsWrittenRow<C>(a: string, b: string, combined: seq<string>, perm: seq<nat>, x: C, y: C, z: C, fill: C)
    requires a != b && combined == [b, a] && perm == [1, 0]
    ensures Pick(PlaceReads(Prefill([x, y], |combined|, fill), combined, [a], [z], 0), perm) == [z, x]
  {
    ReingestPlaced(a, b, x, y, z, fill);
    PickSwap([x, z]);
  }

  /** The corrected row on the re-ingest example, sorted. */
  lemma CorrectedRow<C>(kept: seq<nat>, perm: seq<nat>, x: C, y: C, z: C)
    requires kept == [1] && perm == [1, 0]
    ensures Pick(Pick([x, y], kept) + [z], perm) == [z, y]
  {
    KeptThenNew(x, y, z);
    PickSwap([y, z]);
  }

  /** The corrected row before sorting: stored column 1, then the new band. */
  lemma KeptThenNew<C>(x: C, y: C, z: C)
    ensures Pick([x, y], [1]) + [z] == [y, z]
  {
    PickSwap([x, y]);
  }

  lemma ReingestAsWrittenPieces<C>(a: string, b: string, x: C, y: C, z: C, fill: C)
    requires StrLt(a, b) && |b| > 0
    ensures |[a, b]| <= |Combined([a, b], [a])|
    ensures var combined := Combined([a, b], [a]);
      var arr := PlaceReads(Prefill([x, y], |combined|, fill), combined, [a], [z], 0);
      SortStrings(combined) == [a, b] && Pick(arr, ArgSort(combined)) == [z, x]
  {
    ReingestParts(a, b);
    AsWrittenRow(a, b, Combined([a, b], [a]), ArgSort(Combined([a, b], [a])), x, y, z, fill);
  }

  lemma ReingestCorrectedPieces<C>(a: string, b: string, x: C, y: C, z: C)
    requires StrLt(a, b) && |b| > 0
    ensures |KeptStoredIndices([a, b], [a])| == 1 && |[a, b]| <= |Combined([a, b], [a])|
    ensures var combined := Combined([a, b], [a]);
      var kept := KeptStoredIndices([a, b], [a]);
      SortStrings(combined) == [a, b] && Pick(Pick([x, y], kept) + [z], ArgSort(combined)) == [z, y]
  {
    ReingestParts(a, b);
    CorrectedRow(KeptStoredIndices([a, b], [a]), ArgSort(Combined([a, b], [a])), x, y, z);
  }

  /** Re-ingesting a date the file already holds shifts the stored columns.
      With stored dates `a < b` (say 2002001 and 2002009) holding `x` and
      `y`, and a new file for `a` yielding `z`, the update writes `z` under
      `a` and the old `a` data `x` under `b`: the data of `b` is lost. */
  lemma ReingestShiftsColumns<C>(a: string, b: string, x: C, y: C, z: C, fill: C)
    requires StrLt(a, b) && |b| > 0 && x != y
    ensures UpdateAsWritten(Store([a, b], [x, y]), [a], [z], fill) == Ok(Store([a, b], [z, x]))
    ensures !Corresponds(Store([a, b], [z, x]), Store([a, b], [x, y]), [a], [z])
  {
    ReingestAsWrittenPieces(a, b, x, y, z, fill);
    AsWrittenUnfold(Store([a, b], [x, y]), [a], [z], fill);
    ReingestLosesB(a, b, x, y, z);
  }

  /** Under `b` the example's output holds `x`, where `y` belongs. */
  lemma ReingestLosesB<C>(a: string, b: string, x: C, y: C, z: C)
    requires a != b && x != y
    ensures !Corresponds(Store([a, b], [z, x]), Store([a, b], [x, y]), [a], [z])
  {
    assert IndexOf([a, b], b) == 1;
    assert Expected(Store([a, b], [x, y]), [a], [z], b) == y;
    assert Store([a, b], [z, x]).dates[1] == b;
  }

  /** On the same input the corrected update keeps `y` under `b`. */
  lemma ReingestCorrected<C>(a: string, b: string, x: C, y: C, z: C)
    requires StrLt(a, b) && |b| > 0
    ensures UpdateCorrected(Store([a, b], [x, y]), [a], [z]) == Ok(Store([a, b], [z, y]))
  {
    ReingestCorrectedPieces(a, b, x, y, z);
    CorrectedUnfold(Store([a, b], [x, y]), [a], [z]);
  }
}
