/** The list bookkeeping of `ModisRawH5` (modape/modis/collect.py): choosing,
    ordering and de-duplicating the raw MODIS files of one collection, deciding
    the product, satellite and output file name, and checking the chunk size.

    The regular expressions of `REGEX_PATTERNS` are not part of this model:
    they enter as the opaque fields of `Patterns`. The constant tables
    (`VAM_PRODUCT_CODES`, `TEMPORAL_DICT`, `LST_NAME_LUD`) enter as `Tables`. */
module Collect {

  import opened Results
  import opened Sorting
  import opened StrOrder
  import opened PyText

  /** What the regular expressions of `REGEX_PATTERNS` answer about a file. */
  datatype Patterns = Patterns(
    isVimLst: string -> bool,      // "VIMLST" matches a base name
    isVim: string -> bool,         // "VIM" matches a base name or product
    isLst: string -> bool,         // "LST" matches a base name or product
    date: string -> string,        // first "date" match in a path (julian YYYYDDD)
    product: string -> string,     // first "product" match in a base name
    timestamp: string -> int,      // the "processing_timestamp" group of a path
    tile: string -> seq<string>,   // all "tile" matches in a base name
    version: string -> seq<string> // all "version" matches in a base name
  )

  /** One entry of `TEMPORAL_DICT`. */
  datatype Temporal = Temporal(temporalResolution: int, tshift: int)

  /** The constant tables the constructor consults. */
  datatype Tables = Tables(
    vamCodes: set<string>,                       // VAM_PRODUCT_CODES
    temporal: map<string, Temporal>,             // TEMPORAL_DICT, keyed by product[:5]
    lstNames: map<string, map<string, string>>   // LST_NAME_LUD[code][satellite]
  )

  /** The exceptions the constructor and `create` raise. */
  datatype CollectError =
    | NotVimOrLst(file: string)      // ValueError: not a M{O|Y}D {11,13} file
    | MixedProducts                  // assert: products differ after the prefix
    | DuplicatesRemain               // assert: duplicate dates survive removal
    | UnsupportedCode                // assert: code not in VAM_PRODUCT_CODES
    | NoProductCode                  // AttributeError: no code could be inferred
    | InterleaveNeedsVim             // assert: interleaving a non-VIM product
    | InterleaveNeedsBothSatellites  // assert: interleaving without MOD and MYD
    | OneSatelliteOnly               // assert: two satellites without interleave
    | UnknownTemporal                // KeyError in TEMPORAL_DICT
    | NoLstName                      // KeyError in LST_NAME_LUD
    | IncompatibleCode               // assert: code does not fit the product
    | ZeroChunk                      // ZeroDivisionError in the chunk check
    | UnequalChunks                  // ValueError: chunks do not tile the raster

  /** The file list with its dates; `rawdates[i]` is the date of `files[i]`. */
  datatype Listing = Listing(files: seq<string>, rawdates: seq<string>)

  /** The state `__init__` leaves behind. */
  datatype RawCollection = RawCollection(
    files: seq<string>,
    rawdates: seq<string>,
    vamCode: string,
    satellite: string,
    product: string,
    temporal: Temporal,
    nfiles: nat,
    referenceFile: string,
    filename: string)

  /** Julian date of the first Aqua (MYD) acquisition. */
  const AquaStart: string := "2002185"

  ghost predicate Aligned(l: Listing, pat: Patterns) {
    |l.files| == |l.rawdates| &&
    forall i :: 0 <= i < |l.files| ==> pat.date(l.files[i]) == l.rawdates[i]
  }

  predicate Distinct<T(==)>(s: seq<T>) {
    forall i, j :: 0 <= i < j < |s| ==> s[i] != s[j]
  }

  /** `len(set(s))`. */
  function Card<T(==)>(s: seq<T>): nat {
    |set x | x in s|
  }

  lemma {:induction false} CardDistinct<T>(s: seq<T>)
    ensures Card(s) <= |s|
    ensures Card(s) == |s| <==> Distinct(s)
    decreases |s|
  {
    if |s| > 0 {
      var t := s[1..];
      CardDistinct(t);
      assert (set x | x in s) == {s[0]} + (set x | x in t) by {
        assert s == [s[0]] + t;
      }
      if s[0] in t {
        var k :| 0 <= k < |t| && t[k] == s[0];
        assert s[0] == s[k + 1];
      } else {
        assert Distinct(s) <==> Distinct(t) by {
          if Distinct(t) {
            forall i, j | 0 <= i < j < |s| ensures s[i] != s[j] {
              if i > 0 { assert s[i] == t[i - 1]; }
              assert s[j] == t[j - 1];
            }
          }
        }
      }
    }
  }

  // ---------------------------------------------------------------------
  // Lines 55-58: every file must be a VIM or LST product.

  /** Index of the first file whose base name is not VIM or LST, where
      the loop raises. */
  function FirstUnsupported(files: seq<string>, pat: Patterns): (r: Option<nat>)
    ensures r.None? <==> forall i :: 0 <= i < |files| ==> pat.isVimLst(Basename(files[i]))
    ensures r.Some? ==> r.value < |files| && !pat.isVimLst(Basename(files[r.value]))
    ensures r.Some? ==> forall j :: 0 <= j < r.value ==> pat.isVimLst(Basename(files[j]))
  {
    if |files| == 0 then None
    else if !pat.isVimLst(Basename(files[0])) then Some(0)
    else
      match FirstUnsupported(files[1..], pat)
      case None => None
      case Some(k) => Some(k + 1)
  }

  // ---------------------------------------------------------------------
  // Lines 60-62: sort files by (date, path), dates by date.

  /** Python's `<=` on `(date, path)` tuples. */
  predicate DateFileLe(p: (string, string), q: (string, string)) {
    StrLt(p.0, q.0) || (p.0 == q.0 && StrLe(p.1, q.1))
  }

  lemma DateFileLeIsOrder()
    ensures TotalPreorder(DateFileLe)
    ensures forall p, q :: DateFileLe(p, q) ==> StrLe(p.0, q.0)
  {
    forall p: (string, string), q: (string, string)
      ensures DateFileLe(p, q) || DateFileLe(q, p)
    {
      StrLeTotal(p.0, q.0);
      StrLeTotal(p.1, q.1);
    }
    forall p: (string, string), q: (string, string) | DateFileLe(p, q)
      ensures StrLe(p.0, q.0)
    {
      StrLeRefl(p.0);
    }
    forall p: (string, string), q: (string, string), r: (string, string)
      | DateFileLe(p, q) && DateFileLe(q, r)
      ensures DateFileLe(p, r)
    {
      if p.0 == q.0 && q.0 == r.0 {
        StrLeTrans(p.1, q.1, r.1);
      } else {
        StrLeRefl(q.0);
        StrLeTrans(p.0, q.0, r.0);
        if p.0 == r.0 {
          StrLeAntisym(p.0, q.0);
        }
      }
    }
  }

  /** The dates found in the paths, in input order. */
  function DatesOf(files: seq<string>, pat: Patterns): (r: seq<string>)
    ensures |r| == |files|
  {
    Map(pat.date, files)
  }

  /** `rawdates`, `files = [x for (y, x) in sorted(zip(rawdates, files))]`
      and `rawdates.sort()`. */
  function SortByDate(files: seq<string>, pat: Patterns): (r: Listing)
    ensures |r.files| == |files|
    ensures multiset(r.files) == multiset(files)
    ensures multiset(r.rawdates) == multiset(DatesOf(files, pat))
    ensures Sorted(r.rawdates, StrLe)
    ensures Aligned(r, pat)
  {
    DateFileLeIsOrder();
    StrLeIsOrder();
    var dates := DatesOf(files, pat);
    var zipped := Zip(dates, files);
    var pairs := SortBy(zipped, DateFileLe);
    var sortedFiles := Map(Snd, pairs);
    var rawdates := SortBy(dates, StrLe);
    SortByDateAligned(files, pat, zipped, pairs);
    MapPreservesMultiset(Snd, pairs, zipped);
    assert Map(Snd, zipped) == files;
    Listing(sortedFiles, rawdates)
  }

  lemma SortByDateAligned(files: seq<string>, pat: Patterns, zipped: seq<(string, string)>, pairs: seq<(string, string)>)
    requires zipped == Zip(DatesOf(files, pat), files)
    requires TotalPreorder(DateFileLe) && TotalPreorder(StrLe) && Antisymmetric(StrLe)
    requires forall p, q :: DateFileLe(p, q) ==> StrLe(p.0, q.0)
    requires pairs == SortBy(zipped, DateFileLe)
    ensures forall i :: 0 <= i < |pairs| ==>
      pat.date(pairs[i].1) == pairs[i].0 == SortBy(DatesOf(files, pat), StrLe)[i]
  {
    SortedPairsKeys(files, pat, zipped, pairs);
    PairsKeepDates(files, pat, zipped, pairs);
  }

  /** The keys of the sorted pairs are the sorted dates. */
  lemma SortedPairsKeys(files: seq<string>, pat: Patterns, zipped: seq<(string, string)>, pairs: seq<(string, string)>)
    requires zipped == Zip(DatesOf(files, pat), files)
    requires TotalPreorder(DateFileLe) && TotalPreorder(StrLe) && Antisymmetric(StrLe)
    requires forall p, q :: DateFileLe(p, q) ==> StrLe(p.0, q.0)
    requires pairs == SortBy(zipped, DateFileLe)
    ensures |pairs| == |SortBy(DatesOf(files, pat), StrLe)|
    ensures forall i :: 0 <= i < |pairs| ==> pairs[i].0 == SortBy(DatesOf(files, pat), StrLe)[i]
  {
    ZipKeys(DatesOf(files, pat), files);
    SortedKeysAgree(zipped, DateFileLe, StrLe);
    FstAt(pairs, SortBy(DatesOf(files, pat), StrLe));
  }

  /** Every pair of a permutation of the zipped list carries its file's date. */
  lemma PairsKeepDates(files: seq<string>, pat: Patterns, zipped: seq<(string, string)>, pairs: seq<(string, string)>)
    requires zipped == Zip(DatesOf(files, pat), files)
    requires multiset(pairs) == multiset(zipped)
    ensures forall i :: 0 <= i < |pairs| ==> pat.date(pairs[i].1) == pairs[i].0
  {
    forall i | 0 <= i < |pairs|
      ensures pat.date(pairs[i].1) == pairs[i].0
    {
      assert pairs[i] in multiset(zipped);
      var j :| 0 <= j < |zipped| && zipped[j] == pairs[i];
    }
  }

  // ---------------------------------------------------------------------
  // Lines 74-107: duplicate dates keep the most recently processed file.

  /** The processing timestamps of the files, in list order. */
  function Timestamps(files: seq<string>, pat: Patterns): (r: seq<int>)
    ensures |r| == |files|
  {
    Map(pat.timestamp, files)
  }

  /** `d` occurs twice among the first `n` dates. */
  ghost predicate RepeatedBefore(dates: seq<string>, n: nat, d: string)
    requires n <= |dates|
  {
    exists i, j :: 0 <= i < j < n && dates[i] == d && dates[j] == d
  }

  /** In a sorted list a date seen before position `k` is also at `k - 1`. */
  lemma SortedRepeatIsAdjacent(dates: seq<string>, i: nat, k: nat)
    requires Sorted(dates, StrLe)
    requires i < k < |dates| && dates[i] == dates[k]
    ensures dates[k - 1] == dates[k]
  {
    if i < k - 1 {
      assert StrLe(dates[i], dates[k - 1]) && StrLe(dates[k - 1], dates[k]);
      StrLeAntisym(dates[k - 1], dates[k]);
    }
  }

  /** The `dups` loop: each date equal to its predecessor, recorded once. */
  method FindDuplicates(dates: seq<string>) returns (dups: seq<string>)
    ensures Distinct(dups)
    ensures forall d :: d in dups ==> RepeatedBefore(dates, |dates|, d)
    ensures Sorted(dates, StrLe) ==> forall d :: RepeatedBefore(dates, |dates|, d) ==> d in dups
  {
    dups := [];
    var prev: Option<string> := None;
    var k := 0;
    while k < |dates|
      invariant 0 <= k <= |dates|
      invariant prev == if k == 0 then None else Some(dates[k - 1])
      invariant Distinct(dups)
      invariant forall d :: d in dups ==> RepeatedBefore(dates, k, d)
      invariant Sorted(dates, StrLe) ==> forall d :: RepeatedBefore(dates, k, d) ==> d in dups
    {
      var dt := dates[k];
      if prev == Some(dt) && dt !in dups {
        dups := dups + [dt];
      }
      forall d | RepeatedBefore(dates, k, d)
        ensures RepeatedBefore(dates, k + 1, d)
      {
        var i, j :| 0 <= i < j < k && dates[i] == d && dates[j] == d;
      }
      if Sorted(dates, StrLe) {
        forall d | RepeatedBefore(dates, k + 1, d)
          ensures d in dups
        {
          var i, j :| 0 <= i < j < k + 1 && dates[i] == d && dates[j] == d;
          if j == k {
            SortedRepeatIsAdjacent(dates, i, k);
          } else {
            assert RepeatedBefore(dates, k, d);
          }
        }
      }
      prev := Some(dt);
      k := k + 1;
    }
  }

  /** `max(ts[ix] for the entries dated d)`. */
  function MaxTs(rawdates: seq<string>, ts: seq<int>, d: string): (r: int)
    requires |rawdates| == |ts| && d in rawdates
    ensures forall i :: 0 <= i < |rawdates| && rawdates[i] == d ==> ts[i] <= r
    ensures exists i :: 0 <= i < |rawdates| && rawdates[i] == d && ts[i] == r
  {
    if rawdates[0] == d then
      if d in rawdates[1..] then
        var m := MaxTs(rawdates[1..], ts[1..], d);
        if ts[0] >= m then ts[0] else m
      else ts[0]
    else MaxTs(rawdates[1..], ts[1..], d)
  }

  /** `to_pop`: the entries of a repeated date that miss its newest timestamp. */
  function PopIndices(rawdates: seq<string>, ts: seq<int>, dups: seq<string>): set<nat>
    requires |rawdates| == |ts|
  {
    set ix: nat | ix < |rawdates| && rawdates[ix] in dups && ts[ix] != MaxTs(rawdates, ts, rawdates[ix])
  }

  /** The entries strictly older than the newest entry of their date. */
  function Superseded(rawdates: seq<string>, ts: seq<int>): set<nat>
    requires |rawdates| == |ts|
  {
    set ix: nat | ix < |rawdates| && ts[ix] < MaxTs(rawdates, ts, rawdates[ix])
  }

  /** The indices below `n` not in `pop`, in increasing order. */
  function KeptIndices(n: nat, pop: set<nat>): (r: seq<nat>)
    ensures forall k :: 0 <= k < |r| ==> r[k] < n && r[k] !in pop
    ensures forall i: nat :: i < n && i !in pop ==> i in r
    ensures forall a, b :: 0 <= a < b < |r| ==> r[a] < r[b]
  {
    if n == 0 then []
    else KeptIndices(n - 1, pop) + (if n - 1 in pop then [] else [n - 1])
  }

  /** `s` without the entries at the indices in `pop`; `DeleteDescendingIsRemoveAt`
      shows it is what the deletion loop of lines 101-104 leaves. */
  function RemoveAt<T>(s: seq<T>, pop: set<nat>): (r: seq<T>)
  {
    Pick(s, KeptIndices(|s|, pop))
  }

  /** `del s[ix]`. */
  function DeleteAt<T>(s: seq<T>, ix: nat): (r: seq<T>)
    requires ix < |s|
    ensures |r| == |s| - 1
  {
    s[..ix] + s[ix + 1..]
  }

  /** `for ix in sorted(pop, reverse=True): del s[ix]`, over the indices
      below `n`: one deletion at a time, the highest index first. */
  function DeleteDescending<T>(s: seq<T>, pop: set<nat>, n: nat): seq<T>
    requires n <= |s|
    decreases n
  {
    if n == 0 then s
    else DeleteDescending(if n - 1 in pop then DeleteAt(s, n - 1) else s, pop, n - 1)
  }

  /** Two lists that agree below `m` pick the same entries there. */
  lemma PickAgree<T>(s: seq<T>, t: seq<T>, keep: seq<nat>, m: nat)
    requires m <= |s| && m <= |t| && s[..m] == t[..m]
    requires forall k :: 0 <= k < |keep| ==> keep[k] < m
    ensures Pick(s, keep) == Pick(t, keep)
  {
    forall k | 0 <= k < |keep|
      ensures s[keep[k]] == t[keep[k]]
    {
      assert s[keep[k]] == s[..m][keep[k]];
      assert t[keep[k]] == t[..m][keep[k]];
    }
  }

  /** Deleting index `n - 1` keeps the entries below it and shifts the rest down. */
  lemma DeletedParts<T>(s: seq<T>, n: nat)
    requires 0 < n <= |s|
    ensures DeleteAt(s, n - 1)[..n - 1] == s[..n - 1]
    ensures DeleteAt(s, n - 1)[n - 1..] == s[n..]
  {
  }

  /** Keeping index `n - 1` moves its entry from the tail to the picks. */
  lemma KeptTail<T>(s: seq<T>, keep: seq<nat>, n: nat)
    requires 0 < n <= |s|
    requires forall k :: 0 <= k < |keep| ==> keep[k] < n - 1
    ensures Pick(s, keep) + s[n - 1..] == Pick(s, keep + [n - 1]) + s[n..]
  {
    PickSnoc(s, keep, n - 1);
    assert s[n - 1..] == [s[n - 1]] + s[n..];
  }

  /** One step of the loop when index `n - 1` is deleted. */
  lemma DropStep<T>(s: seq<T>, pop: set<nat>, n: nat, t: seq<T>)
    requires 0 < n <= |s| && n - 1 in pop && t == DeleteAt(s, n - 1)
    requires DeleteDescending(t, pop, n - 1) == Pick(t, KeptIndices(n - 1, pop)) + t[n - 1..]
    ensures DeleteDescending(s, pop, n) == Pick(s, KeptIndices(n, pop)) + s[n..]
  {
    assert DeleteDescending(s, pop, n) == DeleteDescending(t, pop, n - 1);
    assert KeptIndices(n, pop) == KeptIndices(n - 1, pop);
    DeletedParts(s, n);
    PickAgree(s, t, KeptIndices(n - 1, pop), n - 1);
  }

  /** One step of the loop when index `n - 1` is kept. */
  lemma KeepStep<T>(s: seq<T>, pop: set<nat>, n: nat)
    requires 0 < n <= |s| && n - 1 !in pop
    requires DeleteDescending(s, pop, n - 1) == Pick(s, KeptIndices(n - 1, pop)) + s[n - 1..]
    ensures DeleteDescending(s, pop, n) == Pick(s, KeptIndices(n, pop)) + s[n..]
  {
    assert DeleteDescending(s, pop, n) == DeleteDescending(s, pop, n - 1);
    assert KeptIndices(n, pop) == KeptIndices(n - 1, pop) + [n - 1];
    KeptTail(s, KeptIndices(n - 1, pop), n);
  }

  /** After the deletions below `n`, the kept entries below `n` come first and
      the entries from `n` on are untouched. */
  lemma {:induction false} DeleteDescendingPicks<T>(s: seq<T>, pop: set<nat>, n: nat)
    requires n <= |s|
    ensures DeleteDescending(s, pop, n) == Pick(s, KeptIndices(n, pop)) + s[n..]
    decreases n
  {
    if n > 0 {
      if n - 1 in pop {
        var t := DeleteAt(s, n - 1);
        DeleteDescendingPicks(t, pop, n - 1);
        DropStep(s, pop, n, t);
      } else {
        DeleteDescendingPicks(s, pop, n - 1);
        KeepStep(s, pop, n);
      }
    }
  }

  /** Deleting the popped indices one by one from the highest down leaves
      exactly the entries outside `pop`, in order. */
  lemma DeleteDescendingIsRemoveAt<T>(s: seq<T>, pop: set<nat>)
    ensures DeleteDescending(s, pop, |s|) == RemoveAt(s, pop)
  {
    DeleteDescendingPicks(s, pop, |s|);
    assert s[|s|..] == [];
  }

  /** Keeping every position keeps them in order. */
  lemma {:induction false} KeepAllIndices(n: nat, pop: set<nat>)
    requires forall i :: 0 <= i < n ==> i !in pop
    ensures |KeptIndices(n, pop)| == n
    ensures forall j :: 0 <= j < n ==> KeptIndices(n, pop)[j] == j
  {
    if n > 0 {
      KeepAllIndices(n - 1, pop);
      var prev := KeptIndices(n - 1, pop);
      var all := KeptIndices(n, pop);
      assert n - 1 !in pop;
      assert all == prev + [n - 1];
      forall j | 0 <= j < n - 1
        ensures all[j] == j
      {
        assert all[j] == prev[j];
      }
    }
  }

  lemma RemoveNothing<T>(s: seq<T>)
    ensures RemoveAt(s, {}) == s
  {
    KeepAllIndices(|s|, {});
    assert forall j :: 0 <= j < |s| ==> RemoveAt(s, {})[j] == s[KeptIndices(|s|, {})[j]] == s[j];
  }

  /** Python's assertion at line 107 passes: no date keeps two entries that
      both carry its newest timestamp. */
  ghost predicate UniqueMax(rawdates: seq<string>, ts: seq<int>)
    requires |rawdates| == |ts|
  {
    forall i, j :: 0 <= i < j < |rawdates| && rawdates[i] == rawdates[j] ==>
      ts[i] != MaxTs(rawdates, ts, rawdates[i]) || ts[j] != MaxTs(rawdates, ts, rawdates[j])
  }

  lemma PopIsSuperseded(rawdates: seq<string>, ts: seq<int>, dups: seq<string>)
    requires |rawdates| == |ts|
    requires forall d :: d in dups ==> RepeatedBefore(rawdates, |rawdates|, d)
    requires forall d :: RepeatedBefore(rawdates, |rawdates|, d) ==> d in dups
    ensures PopIndices(rawdates, ts, dups) == Superseded(rawdates, ts)
  {
    forall ix: nat | ix < |rawdates| && ts[ix] < MaxTs(rawdates, ts, rawdates[ix])
      ensures rawdates[ix] in dups
    {
      var d := rawdates[ix];
      var j :| 0 <= j < |rawdates| && rawdates[j] == d && ts[j] == MaxTs(rawdates, ts, d);
      if j < ix {
        assert RepeatedBefore(rawdates, |rawdates|, d);
      } else {
        assert RepeatedBefore(rawdates, |rawdates|, d);
      }
    }
  }

  /** Without repeated dates nothing is superseded and the assertion holds. */
  lemma DistinctNothingSuperseded(rawdates: seq<string>, ts: seq<int>)
    requires |rawdates| == |ts| && Distinct(rawdates)
    ensures Superseded(rawdates, ts) == {}
    ensures UniqueMax(rawdates, ts)
  {
    forall ix: nat | ix < |rawdates|
      ensures ts[ix] == MaxTs(rawdates, ts, rawdates[ix])
    {
      var j :| 0 <= j < |rawdates| && rawdates[j] == rawdates[ix] && ts[j] == MaxTs(rawdates, ts, rawdates[ix]);
      assert j == ix;
    }
  }

  /** The entries `KeptIndices` lists are exactly the ones outside `pop`. */
  lemma KeptPosition(n: nat, pop: set<nat>, i: nat, j: nat)
    requires i < j < n && i !in pop && j !in pop
    ensures exists a, b ::
      && 0 <= a < b < |KeptIndices(n, pop)|
      && KeptIndices(n, pop)[a] == i
      && KeptIndices(n, pop)[b] == j
  {
    var keep := KeptIndices(n, pop);
    var a :| 0 <= a < |keep| && keep[a] == i;
    var b :| 0 <= b < |keep| && keep[b] == j;
  }

  /** Two entries of one date that both carry its newest timestamp both
      survive removal, so the surviving dates repeat. */
  lemma BothNewestRepeat(rawdates: seq<string>, ts: seq<int>, i: nat, j: nat)
    requires |rawdates| == |ts| && i < j < |rawdates| && rawdates[i] == rawdates[j]
    requires ts[i] == MaxTs(rawdates, ts, rawdates[i]) && ts[j] == MaxTs(rawdates, ts, rawdates[j])
    ensures !Distinct(RemoveAt(rawdates, Superseded(rawdates, ts)))
  {
    var gone := Superseded(rawdates, ts);
    var keep := KeptIndices(|rawdates|, gone);
    var kept := RemoveAt(rawdates, gone);
    KeptPosition(|rawdates|, gone, i, j);
    var a, b :| 0 <= a < b < |keep| && keep[a] == i && keep[b] == j;
    assert kept[a] == kept[b];
  }

  /** After removing the superseded entries the dates are distinct exactly
      when every date's newest timestamp is carried by one entry only. */
  lemma KeptDistinctIffUniqueMax(rawdates: seq<string>, ts: seq<int>)
    requires |rawdates| == |ts|
    ensures Distinct(RemoveAt(rawdates, Superseded(rawdates, ts))) <==> UniqueMax(rawdates, ts)
  {
    var gone := Superseded(rawdates, ts);
    var keep := KeptIndices(|rawdates|, gone);
    var kept := RemoveAt(rawdates, gone);
    if UniqueMax(rawdates, ts) {
      forall a, b | 0 <= a < b < |kept|
        ensures kept[a] != kept[b]
      {
        assert keep[a] < keep[b];
      }
    } else {
      var i, j :| 0 <= i < j < |rawdates| && rawdates[i] == rawdates[j] &&
        ts[i] == MaxTs(rawdates, ts, rawdates[i]) && ts[j] == MaxTs(rawdates, ts, rawdates[j]);
      BothNewestRepeat(rawdates, ts, i, j);
    }
  }

  /** Removal keeps the order and the date alignment. (That one entry per
      date remains is `RemoveDuplicates`'s success condition.) */
  lemma RemovalKeepsShape(l: Listing, pat: Patterns, pop: set<nat>)
    requires Aligned(l, pat) && Sorted(l.rawdates, StrLe)
    ensures Aligned(Listing(RemoveAt(l.files, pop), RemoveAt(l.rawdates, pop)), pat)
    ensures Sorted(RemoveAt(l.rawdates, pop), StrLe)
  {
    var keep := KeptIndices(|l.files|, pop);
    var kept := RemoveAt(l.rawdates, pop);
    forall a, b | 0 <= a < b < |kept|
      ensures StrLe(kept[a], kept[b])
    {
      assert keep[a] < keep[b];
    }
  }

  /** Some entry of every date survives, so a non-empty list stays non-empty. */
  lemma RemovalKeepsSome(rawdates: seq<string>, ts: seq<int>)
    requires |rawdates| == |ts| && |rawdates| > 0
    ensures |RemoveAt(rawdates, Superseded(rawdates, ts))| > 0
  {
    var j :| 0 <= j < |rawdates| && rawdates[j] == rawdates[0] && ts[j] == MaxTs(rawdates, ts, rawdates[0]);
    assert j !in Superseded(rawdates, ts);
    assert j in KeptIndices(|rawdates|, Superseded(rawdates, ts));
  }

  /** An entry whose date occurs once is never removed. */
  lemma UniqueDateSurvives(rawdates: seq<string>, ts: seq<int>, i: nat)
    requires |rawdates| == |ts| && i < |rawdates|
    requires forall j :: 0 <= j < |rawdates| && j != i ==> rawdates[j] != rawdates[i]
    ensures i !in Superseded(rawdates, ts)
  {
    var j :| 0 <= j < |rawdates| && rawdates[j] == rawdates[i] && ts[j] == MaxTs(rawdates, ts, rawdates[i]);
    assert j == i;
  }

  /** Removal only drops entries. */
  lemma RemovalIsSubset<T>(s: seq<T>, pop: set<nat>)
    ensures multiset(RemoveAt(s, pop)) <= multiset(s)
  {
    SelectPrefixSubset(s, pop, |s|);
    assert s[..|s|] == s;
    assert RemoveAt(s, pop) == Pick(s, KeptIndices(|s|, pop));
  }

  /** The entries of `s` at the positions `keep`, in that order. */
  function Pick<T>(s: seq<T>, keep: seq<nat>): (r: seq<T>)
    requires forall k :: 0 <= k < |keep| ==> keep[k] < |s|
    ensures |r| == |keep|
  {
    seq(|keep|, k requires 0 <= k < |keep| => s[keep[k]])
  }

  lemma PickSnoc<T>(s: seq<T>, keep: seq<nat>, i: nat)
    requires forall k :: 0 <= k < |keep| ==> keep[k] < |s|
    requires i < |s|
    ensures Pick(s, keep + [i]) == Pick(s, keep) + [s[i]]
  {
  }

  lemma PickSnocMultiset<T>(s: seq<T>, keep: seq<nat>, i: nat)
    requires forall k :: 0 <= k < |keep| ==> keep[k] < |s|
    requires i < |s|
    ensures multiset(Pick(s, keep + [i])) == multiset(Pick(s, keep)) + multiset{s[i]}
  {
    PickSnoc(s, keep, i);
  }

  lemma PrefixMultiset<T>(s: seq<T>, n: nat)
    requires 0 < n <= |s|
    ensures multiset(s[..n]) == multiset(s[..n - 1]) + multiset{s[n - 1]}
  {
    assert s[..n] == s[..n - 1] + [s[n - 1]];
  }

  /** A sub-multiset stays one when an element joins the larger side, and
      also when it joins both. */
  lemma MultisetGrow<T>(m: multiset<T>, p: multiset<T>, q: multiset<T>, x: T)
    requires m <= p && q == p + multiset{x}
    ensures m <= q && m + multiset{x} <= q
  {
  }

  /** One more position of the prefix, kept or not. */
  lemma PickPrefixStep<T>(s: seq<T>, keep': seq<nat>, keep: seq<nat>, n: nat)
    requires 0 < n <= |s|
    requires forall k :: 0 <= k < |keep'| ==> keep'[k] < n - 1
    requires keep == keep' || keep == keep' + [n - 1]
    requires multiset(Pick(s, keep')) <= multiset(s[..n - 1])
    ensures multiset(Pick(s, keep)) <= multiset(s[..n])
  {
    PrefixMultiset(s, n);
    MultisetGrow(multiset(Pick(s, keep')), multiset(s[..n - 1]), multiset(s[..n]), s[n - 1]);
    if keep != keep' {
      PickSnocMultiset(s, keep', n - 1);
    }
  }

  lemma {:induction false} SelectPrefixSubset<T>(s: seq<T>, pop: set<nat>, n: nat)
    requires n <= |s|
    ensures multiset(Pick(s, KeptIndices(n, pop))) <= multiset(s[..n])
  {
    if n > 0 {
      SelectPrefixSubset(s, pop, n - 1);
      PickPrefixStep(s, KeptIndices(n - 1, pop), KeptIndices(n, pop), n);
    }
  }

  /** Every date keeps an entry: the newest entry of a date is never removed. */
  lemma EveryDateSurvives(rawdates: seq<string>, ts: seq<int>)
    requires |rawdates| == |ts|
    ensures forall i :: 0 <= i < |rawdates| ==> rawdates[i] in RemoveAt(rawdates, Superseded(rawdates, ts))
  {
    var gone := Superseded(rawdates, ts);
    var keep := KeptIndices(|rawdates|, gone);
    forall i | 0 <= i < |rawdates|
      ensures rawdates[i] in RemoveAt(rawdates, gone)
    {
      var j :| 0 <= j < |rawdates| && rawdates[j] == rawdates[i] && ts[j] == MaxTs(rawdates, ts, rawdates[i]);
      assert j !in gone;
      var k :| 0 <= k < |keep| && keep[k] == j;
      assert RemoveAt(rawdates, gone)[k] == rawdates[i];
    }
  }

  /** Lines 74-107. */
  method RemoveDuplicates(l: Listing, pat: Patterns) returns (r: Result<Listing, CollectError>)
    requires Aligned(l, pat) && Sorted(l.rawdates, StrLe)
    ensures r.Ok? <==> UniqueMax(l.rawdates, Timestamps(l.files, pat))
    ensures r.Err? ==> r.error == DuplicatesRemain
    ensures r.Ok? ==>
      var gone := Superseded(l.rawdates, Timestamps(l.files, pat));
      r.value == Listing(RemoveAt(l.files, gone), RemoveAt(l.rawdates, gone))
    ensures r.Ok? ==> Aligned(r.value, pat) && Sorted(r.value.rawdates, StrLe) && Distinct(r.value.rawdates)
    ensures r.Ok? && |l.files| > 0 ==> |r.value.files| > 0
  {
    var ts := Timestamps(l.files, pat);
    var gone := Superseded(l.rawdates, ts);
    RemovalKeepsShape(l, pat, gone);
    if |l.files| > 0 {
      RemovalKeepsSome(l.rawdates, ts);
    }
    CardDistinct(l.rawdates);
    if Card(l.rawdates) == |l.files| {
      DistinctNothingSuperseded(l.rawdates, ts);
      RemoveNothing(l.files);
      RemoveNothing(l.rawdates);
      r := Ok(l);
    } else {
      var dups := FindDuplicates(l.rawdates);
      var toPop := PopIndices(l.rawdates, ts, dups);
      PopIsSuperseded(l.rawdates, ts, dups);
      var files := DeleteDescending(l.files, toPop, |l.files|);
      var rawdates := DeleteDescending(l.rawdates, toPop, |l.rawdates|);
      DeleteDescendingIsRemoveAt(l.files, toPop);
      DeleteDescendingIsRemoveAt(l.rawdates, toPop);
      CardDistinct(rawdates);
      KeptDistinctIffUniqueMax(l.rawdates, ts);
      if Card(rawdates) != |files| {
        r := Err(DuplicatesRemain);
      } else {
        r := Ok(Listing(files, rawdates));
      }
    }
  }

  // ---------------------------------------------------------------------
  // Lines 64-72 and 124-154: product, satellite and interleaving.

  /** The product code in a file's base name. */
  function ProductOf(file: string, pat: Patterns): string {
    pat.product(Basename(file))
  }

  /** `products`, in the order of the sorted file list. */
  function Products(files: seq<string>, pat: Patterns): (r: seq<string>)
    ensures |r| == |files|
    ensures forall i :: 0 <= i < |files| ==> r[i] == ProductOf(files[i], pat)
  {
    seq(|files|, i requires 0 <= i < |files| => ProductOf(files[i], pat))
  }

  /** `x[3:]`: the product without its satellite prefix. */
  function Suffix(product: string): string { SliceFrom(product, 3) }

  /** `x[:3]`: the satellite prefix (MOD, MYD). */
  function Prefix(product: string): string { SliceTo(product, 3) }

  function SuffixSet(products: seq<string>): set<string> {
    set x | x in products :: Suffix(x)
  }

  /** `satset`. */
  function SatelliteSet(products: seq<string>): set<string> {
    set x | x in products :: Prefix(x)
  }

  lemma SingletonMembers(s: set<string>, a: string, b: string)
    requires |s| == 1 && a in s && b in s
    ensures a == b
  {
    var rest := s - {a};
    assert |rest| == 0;
    assert b !in rest;
  }

  /** Line 72 passes exactly when there is at least one product and all
      share the suffix of the first. */
  lemma OneSuffixIffShared(products: seq<string>)
    ensures |SuffixSet(products)| == 1 <==>
      |products| > 0 && forall i :: 0 <= i < |products| ==> Suffix(products[i]) == Suffix(products[0])
  {
    if |SuffixSet(products)| == 1 {
      forall i | 0 <= i < |products|
        ensures Suffix(products[i]) == Suffix(products[0])
      {
        SingletonMembers(SuffixSet(products), Suffix(products[i]), Suffix(products[0]));
      }
    }
    if |products| > 0 && forall i :: 0 <= i < |products| ==> Suffix(products[i]) == Suffix(products[0]) {
      assert SuffixSet(products) == {Suffix(products[0])};
    }
  }

  /** A product is its satellite prefix followed by its suffix. */
  lemma PrefixSuffix(product: string)
    ensures Prefix(product) + Suffix(product) == product
  {
  }

  /** Without interleaving both checks together mean all products are equal. */
  lemma OneSatelliteOneProduct(products: seq<string>)
    requires |SuffixSet(products)| == 1 && |SatelliteSet(products)| == 1
    ensures forall i :: 0 <= i < |products| ==> products[i] == products[0]
  {
    OneSuffixIffShared(products);
    forall i | 0 <= i < |products|
      ensures products[i] == products[0]
    {
      SingletonMembers(SatelliteSet(products), Prefix(products[i]), Prefix(products[0]));
      PrefixSuffix(products[i]);
      PrefixSuffix(products[0]);
    }
  }

  /** `(self.satellite, self.product)` from lines 124-154. The VIM check of
      line 128 reads `self.vam_product_code`, which is missing (an
      AttributeError) when no code was supplied or inferred. */
  function SelectProduct(products: seq<string>, vam: Option<string>, interleave: bool): (r: Result<(string, string), CollectError>)
    requires |products| > 0
    ensures r.Ok? && interleave ==>
      && vam == Some("VIM")
      && |SatelliteSet(products)| == 2
      && r.value == ("MXD", "MXD" + Suffix(products[0]))
    ensures r.Ok? && !interleave ==>
      && SatelliteSet(products) == {Prefix(products[0])}
      && r.value == (Prefix(products[0]), products[0])
    ensures r.Err? <==>
      if interleave then vam != Some("VIM") || |SatelliteSet(products)| != 2
      else |SatelliteSet(products)| != 1
  {
    if interleave then
      if vam.None? then Err(NoProductCode)
      else if vam.value != "VIM" then Err(InterleaveNeedsVim)
      else if |SatelliteSet(products)| != 2 then Err(InterleaveNeedsBothSatellites)
      else Ok(("MXD", "MXD" + Suffix(products[0])))
    else if |SatelliteSet(products)| != 1 then Err(OneSatelliteOnly)
    else
      assert Prefix(products[0]) in SatelliteSet(products);
      assert forall x :: x in SatelliteSet(products) ==> x == Prefix(products[0]) by {
        forall x | x in SatelliteSet(products) ensures x == Prefix(products[0]) {
          SingletonMembers(SatelliteSet(products), x, Prefix(products[0]));
        }
      }
      Ok((Prefix(products[0]), products[0]))
  }

  /** The date-loop of lines 136-142 from index `ix` on: `start` stops at the
      first date on or after the Aqua start, or at the last index. */
  function CutoffFrom(rawdates: seq<string>, ix: nat): (start: nat)
    requires ix < |rawdates|
    ensures ix <= start < |rawdates|
    ensures forall j :: ix <= j < start ==> !StrLe(AquaStart, rawdates[j])
    ensures StrLe(AquaStart, rawdates[start]) || start == |rawdates| - 1
    decreases |rawdates| - ix
  {
    if StrLe(AquaStart, rawdates[ix]) || ix == |rawdates| - 1 then ix
    else CutoffFrom(rawdates, ix + 1)
  }

  /** `start` of lines 136-142. */
  function CutoffStart(rawdates: seq<string>): (start: nat)
    requires |rawdates| > 0
    ensures start < |rawdates|
  {
    CutoffFrom(rawdates, 0)
  }

  /** When some date reaches the Aqua start, the kept suffix begins at the
      first such date and every dropped date is earlier. */
  lemma CutoffDropsOnlyEarlier(rawdates: seq<string>)
    requires |rawdates| > 0
    requires exists i :: 0 <= i < |rawdates| && StrLe(AquaStart, rawdates[i])
    ensures StrLe(AquaStart, rawdates[CutoffStart(rawdates)])
    ensures forall j :: 0 <= j < CutoffStart(rawdates) ==> StrLt(rawdates[j], AquaStart)
  {
    var start := CutoffStart(rawdates);
    forall j | 0 <= j < start
      ensures StrLt(rawdates[j], AquaStart)
    {
      StrNotLe(AquaStart, rawdates[j]);
    }
  }

  /** When no date reaches the Aqua start the loop leaves `start` at the last
      index, and exactly one file (the latest) is kept. */
  lemma CutoffKeepsLastWhenNoneQualify(rawdates: seq<string>)
    requires |rawdates| > 0
    requires forall i :: 0 <= i < |rawdates| ==> !StrLe(AquaStart, rawdates[i])
    ensures CutoffStart(rawdates) == |rawdates| - 1
    ensures |rawdates[CutoffStart(rawdates)..]| == 1
  {
  }

  /** On sorted dates, once the first kept date reaches the Aqua start every
      kept date does. */
  lemma CutoffKeptAreLater(rawdates: seq<string>)
    requires |rawdates| > 0 && Sorted(rawdates, StrLe)
    requires StrLe(AquaStart, rawdates[CutoffStart(rawdates)])
    ensures forall j :: CutoffStart(rawdates) <= j < |rawdates| ==> StrLe(AquaStart, rawdates[j])
  {
    var start := CutoffStart(rawdates);
    forall j | start < j < |rawdates|
      ensures StrLe(AquaStart, rawdates[j])
    {
      StrLeTrans(AquaStart, rawdates[start], rawdates[j]);
    }
  }

  // ---------------------------------------------------------------------
  // Lines 109-122 and 163-181: product code and output file name.

  /** `self.vam_product_code`, or `None` when it stays unset (lines 109-122). */
  function ResolveCode(vam: Option<string>, refname: string, pat: Patterns, tables: Tables): (r: Result<Option<string>, CollectError>)
    ensures vam.Some? ==> (r.Ok? <==> vam.value in tables.vamCodes)
    ensures vam.Some? && r.Ok? ==> r.value == vam
    ensures vam.None? ==> r.Ok?
    ensures vam.None? && pat.isVim(refname) ==> r.value == Some("VIM")
    ensures vam.None? && !pat.isVim(refname) && pat.isLst(refname) ==> r.value == Some("LTD")
    ensures vam.None? && !pat.isVim(refname) && !pat.isLst(refname) ==> r.value.None?
  {
    match vam
    case None =>
      if pat.isVim(refname) then Ok(Some("VIM"))
      else if pat.isLst(refname) then Ok(Some("LTD"))
      else Ok(None)
    case Some(code) =>
      if code in tables.vamCodes then Ok(Some(code)) else Err(UnsupportedCode)
  }

  /** `fn_code` after the compatibility check of line 173. */
  function FileCode(vam: Option<string>, satellite: string, product: string, pat: Patterns, tables: Tables): (r: Result<string, CollectError>)
    ensures r.Ok? ==> vam.Some?
    ensures r.Ok? && vam.value in {"LTD", "LTN"} ==>
      && vam.value in tables.lstNames && satellite in tables.lstNames[vam.value]
      && r.value == tables.lstNames[vam.value][satellite]
      && pat.isLst(product)
    ensures r.Ok? && vam.value !in {"LTD", "LTN"} ==> r.value == vam.value && pat.isVim(product)
    ensures vam.Some? && vam.value !in {"LTD", "LTN"} ==> (r.Ok? <==> pat.isVim(product))
    ensures vam.Some? && vam.value in {"LTD", "LTN"} ==>
      (r.Ok? <==> vam.value in tables.lstNames && satellite in tables.lstNames[vam.value] && pat.isLst(product))
    ensures vam.None? ==> r == Err(NoProductCode)
  {
    match vam
    case None => Err(NoProductCode)
    case Some(code) =>
      if code == "LTD" || code == "LTN" then
        if code in tables.lstNames && satellite in tables.lstNames[code] then
          if pat.isLst(product) then Ok(tables.lstNames[code][satellite]) else Err(IncompatibleCode)
        else Err(NoLstName)
      else if pat.isVim(product) then Ok(code) else Err(IncompatibleCode)
  }

  /** `'.'.join(tile + version)` of the reference file name. */
  function TileVersion(refname: string, pat: Patterns): string {
    Join(pat.tile(refname) + pat.version(refname), '.')
  }

  /** `f"{targetdir}/{fn_code}/{product}.{tile_version}.{fn_code}.h5"`. */
  function OutputName(targetdir: string, fnCode: string, product: string, tileVersion: string): string {
    targetdir + "/" + fnCode + "/" + product + "." + tileVersion + "." + fnCode + ".h5"
  }

  /** The output file lies in a directory named after the file code, directly
      under the target directory, and its name ends in `.<fn_code>.h5`. */
  lemma OutputNameLayout(targetdir: string, fnCode: string, product: string, tileVersion: string)
    requires '/' !in fnCode && '/' !in product && '/' !in tileVersion
    requires '.' !in fnCode
    ensures Split(OutputName(targetdir, fnCode, product, tileVersion), '/') ==
      Split(targetdir, '/') + [fnCode, product + "." + tileVersion + "." + fnCode + ".h5"]
    ensures Basename(OutputName(targetdir, fnCode, product, tileVersion)) ==
      product + "." + tileVersion + "." + fnCode + ".h5"
    ensures var parts := Split(product + "." + tileVersion + "." + fnCode + ".h5", '.');
      |parts| >= 2 && parts[|parts| - 2..] == [fnCode, "h5"]
  {
    var stem := product + "." + tileVersion;
    var base := stem + "." + fnCode + ".h5";
    assert '/' !in base by {
      NoSepConcat(stem, "." + fnCode + ".h5", '/');
    }
    assert OutputName(targetdir, fnCode, product, tileVersion) == targetdir + ['/'] + (fnCode + ['/'] + base);
    TwoLevelSplit(targetdir, fnCode, base, '/');
    DotExtension(stem, fnCode);
  }

  /** A string made of two separator-free strings has no separator. */
  lemma NoSepConcat(a: string, b: string, c: char)
    requires c !in a && c !in b
    ensures c !in a + b
  {
    forall i | 0 <= i < |a + b|
      ensures (a + b)[i] != c
    {
      if i < |a| {
        assert (a + b)[i] == a[i];
      } else {
        assert (a + b)[i] == b[i - |a|];
      }
    }
  }

  /** `dir/mid/name.split('/')` with separator-free `mid` and `name`. */
  lemma TwoLevelSplit(dir: string, mid: string, name: string, c: char)
    requires c !in mid && c !in name
    ensures Split(dir + [c] + (mid + [c] + name), c) == Split(dir, c) + [mid, name]
  {
    SplitAppend(dir, mid + [c] + name, c);
    SplitAppend(mid, name, c);
    SplitNoSep(mid, c);
    SplitNoSep(name, c);
  }

  /** The last two `.`-pieces of `stem.code.h5` are the code and `h5`. */
  lemma DotExtension(stem: string, code: string)
    requires '.' !in code
    ensures var parts := Split(stem + "." + code + ".h5", '.');
      |parts| >= 2 && parts[|parts| - 2..] == [code, "h5"]
  {
    assert stem + "." + code + ".h5" == stem + ['.'] + (code + ['.'] + "h5");
    SplitAppend(stem, code + ['.'] + "h5", '.');
    SplitAppend(code, "h5", '.');
    SplitNoSep(code, '.');
    SplitNoSep("h5", '.');
  }

  // ---------------------------------------------------------------------
  // Lines 203-212 of `create`: the chunk size.

  /** Pixel rows per chunk; `chunk` is falsy when absent or zero. */
  function ChunkRows(chunk: Option<int>, nrows: nat, ncols: nat): int {
    if chunk.None? || chunk.value == 0 then (nrows * ncols) / 25 else chunk.value
  }

  /** The chunk check: the raster's pixels must split into whole chunks. */
  function CheckChunk(chunk: Option<int>, nrows: nat, ncols: nat): (r: Result<int, CollectError>)
    ensures r.Ok? ==> r.value == ChunkRows(chunk, nrows, ncols)
    ensures r.Ok? <==> (ChunkRows(chunk, nrows, ncols) != 0 &&
      exists q :: q * ChunkRows(chunk, nrows, ncols) == nrows * ncols)
    ensures r.Err? && ChunkRows(chunk, nrows, ncols) == 0 ==> r.error == ZeroChunk
  {
    var rows := ChunkRows(chunk, nrows, ncols);
    if rows == 0 then Err(ZeroChunk)
    else if (nrows * ncols) % rows != 0 then
      assert forall q :: q * rows != nrows * ncols by {
        forall q ensures q * rows != nrows * ncols {
          if q * rows == nrows * ncols {
            DividesMod(nrows * ncols, rows, q);
          }
        }
      }
      Err(UnequalChunks)
    else
      assert ((nrows * ncols) / rows) * rows == nrows * ncols;
      Ok(rows)
  }

  /** A multiple of `d` leaves no remainder. */
  lemma DividesMod(n: int, d: int, q: int)
    requires d != 0 && q * d == n
    ensures n % d == 0
  {
    var k := n / d;
    var r := n % d;
    assert d * (q - k) == r by {
      assert n == d * k + r;
      assert d * (q - k) == d * q - d * k;
    }
    if q - k != 0 {
      MulAtLeast(d, q - k);
    }
  }

  /** A nonzero multiple of `d` is at least `|d|` away from zero. */
  lemma MulAtLeast(d: int, x: int)
    requires d != 0 && x != 0
    ensures d * x >= (if d > 0 then d else -d) || d * x <= -(if d > 0 then d else -d)
  {
    var ad := if d > 0 then d else -d;
    var ax := if x > 0 then x else -x;
    assert ad * ax >= ad by {
      assert ad * (ax - 1) >= 0;
      assert ad * ax == ad * (ax - 1) + ad;
    }
    assert d * x == ad * ax || d * x == -(ad * ax);
  }

  /** The default chunk, a 25th of the raster, always passes when the pixel
      count is a positive multiple of 25 (as for 2400 x 2400 MODIS tiles). */
  lemma DefaultChunkAccepted(nrows: nat, ncols: nat)
    requires nrows * ncols >= 25 && (nrows * ncols) % 25 == 0
    ensures CheckChunk(None, nrows, ncols) == Ok((nrows * ncols) / 25)
  {
    var n := nrows * ncols;
    assert 25 * (n / 25) == n;
    assert (n / 25) * 25 == n;
  }

  /** Fewer than 25 pixels make the default chunk zero, and the check
      divides by it. */
  lemma DefaultChunkTooSmall(nrows: nat, ncols: nat)
    requires nrows * ncols < 25
    ensures CheckChunk(None, nrows, ncols) == Err(ZeroChunk)
  {
  }

  // ---------------------------------------------------------------------
  // The constructor, lines 52-183.

  /** Products from a permutation of the files form the same suffix and
      satellite sets. */
  lemma ProductSetsOfPermutation(files: seq<string>, other: seq<string>, pat: Patterns)
    requires multiset(files) == multiset(other)
    ensures SuffixSet(Products(files, pat)) == SuffixSet(Products(other, pat))
    ensures SatelliteSet(Products(files, pat)) == SatelliteSet(Products(other, pat))
  {
    forall x | x in Products(files, pat)
      ensures x in Products(other, pat)
    {
      var i :| 0 <= i < |files| && Products(files, pat)[i] == x;
      assert files[i] in multiset(other);
      var j :| 0 <= j < |other| && other[j] == files[i];
      assert Products(other, pat)[j] == x;
    }
    forall x | x in Products(other, pat)
      ensures x in Products(files, pat)
    {
      var j :| 0 <= j < |other| && Products(other, pat)[j] == x;
      assert other[j] in multiset(files);
      var i :| 0 <= i < |files| && files[i] == other[j];
      assert Products(files, pat)[i] == x;
    }
  }

  /** The listing after the Aqua cutoff of lines 145-146. */
  function CutListing(l: Listing): (r: Listing)
    requires |l.files| == |l.rawdates| > 0
  {
    var start := CutoffStart(l.rawdates);
    Listing(l.files[start..], l.rawdates[start..])
  }

  /** A suffix of a listing keeps its shape and draws on its files. */
  lemma SuffixKeepsShape(l: Listing, pat: Patterns, start: nat)
    requires Aligned(l, pat) && Sorted(l.rawdates, StrLe) && Distinct(l.rawdates) && start < |l.files|
    ensures var c := Listing(l.files[start..], l.rawdates[start..]);
      && Aligned(c, pat) && Sorted(c.rawdates, StrLe) && Distinct(c.rawdates)
      && multiset(c.files) <= multiset(l.files)
  {
    assert l.files == l.files[..start] + l.files[start..];
  }

  /** The cutoff keeps a non-empty, aligned, sorted, distinct suffix. */
  lemma CutListingShape(l: Listing, pat: Patterns)
    requires Aligned(l, pat) && Sorted(l.rawdates, StrLe) && Distinct(l.rawdates) && |l.files| > 0
    ensures var c := CutListing(l);
      && Aligned(c, pat) && Sorted(c.rawdates, StrLe) && Distinct(c.rawdates)
      && 0 < |c.files| && multiset(c.files) <= multiset(l.files)
  {
    SuffixKeepsShape(l, pat, CutoffStart(l.rawdates));
  }

  /** The kept suffix starts on or after the Aqua start, or is the single
      latest file; once it starts there, every kept date is there. */
  lemma CutListingAqua(l: Listing)
    requires Sorted(l.rawdates, StrLe) && |l.files| == |l.rawdates| > 0
    ensures var c := CutListing(l);
      && (|c.rawdates| == 1 || StrLe(AquaStart, c.rawdates[0]))
      && (StrLe(AquaStart, c.rawdates[0]) ==> forall j :: 0 <= j < |c.rawdates| ==> StrLe(AquaStart, c.rawdates[j]))
  {
    var start := CutoffStart(l.rawdates);
    var c := CutListing(l);
    if StrLe(AquaStart, c.rawdates[0]) {
      CutoffKeptAreLater(l.rawdates);
      assert forall j :: 0 <= j < |c.rawdates| ==> c.rawdates[j] == l.rawdates[start + j];
    }
  }

  /** Every date from the Aqua start on survives the cutoff. */
  lemma CutListingKeepsLate(l: Listing)
    requires |l.files| == |l.rawdates| > 0
    ensures forall d :: d in l.rawdates && StrLe(AquaStart, d) ==> d in CutListing(l).rawdates
  {
    var start := CutoffStart(l.rawdates);
    forall d | d in l.rawdates && StrLe(AquaStart, d)
      ensures d in CutListing(l).rawdates
    {
      var i :| 0 <= i < |l.rawdates| && l.rawdates[i] == d;
      CutoffDropsOnlyEarlier(l.rawdates);
      assert CutListing(l).rawdates[i - start] == d;
    }
  }

  /** Every input date is a date of the sorted, de-duplicated listing. */
  lemma DatesCovered(files: seq<string>, pat: Patterns, l: Listing)
    requires var sorted := SortByDate(files, pat);
      var gone := Superseded(sorted.rawdates, Timestamps(sorted.files, pat));
      l.rawdates == RemoveAt(sorted.rawdates, gone)
    ensures forall i :: 0 <= i < |files| ==> pat.date(files[i]) in l.rawdates
  {
    var sorted := SortByDate(files, pat);
    EveryDateSurvives(sorted.rawdates, Timestamps(sorted.files, pat));
    forall i | 0 <= i < |files|
      ensures pat.date(files[i]) in l.rawdates
    {
      assert DatesOf(files, pat)[i] == pat.date(files[i]);
      assert pat.date(files[i]) in multiset(sorted.rawdates);
    }
  }

  /** Lines 156-181: temporal resolution, file code and output name. */
  function Finish(l: Listing, code: Option<string>, satellite: string, product: string, targetdir: string, pat: Patterns, tables: Tables)
    : (r: Result<RawCollection, CollectError>)
    requires |l.files| == |l.rawdates| > 0
    ensures r.Ok? ==>
      var c := r.value;
      && code == Some(c.vamCode)
      && c.files == l.files && c.rawdates == l.rawdates && c.nfiles == |l.files|
      && c.satellite == satellite && c.product == product
      && c.referenceFile == l.files[0]
      && SliceTo(product, 5) in tables.temporal
      && c.temporal == tables.temporal[SliceTo(product, 5)]
      && FileCode(code, satellite, product, pat, tables).Ok?
      && c.filename == OutputName(targetdir, FileCode(code, satellite, product, pat, tables).value,
                                  product, TileVersion(Basename(l.files[0]), pat))
    ensures SliceTo(product, 5) !in tables.temporal ==> r == Err(UnknownTemporal)
    ensures SliceTo(product, 5) in tables.temporal ==> (r.Ok? <==> FileCode(code, satellite, product, pat, tables).Ok?)
    ensures SliceTo(product, 5) in tables.temporal && FileCode(code, satellite, product, pat, tables).Err? ==>
      r == Err(FileCode(code, satellite, product, pat, tables).error)
  {
    if SliceTo(product, 5) !in tables.temporal then Err(UnknownTemporal)
    else
      var temporal := tables.temporal[SliceTo(product, 5)];
      var fnCode :- FileCode(code, satellite, product, pat, tables);
      var filename := OutputName(targetdir, fnCode, product, TileVersion(Basename(l.files[0]), pat));
      Ok(RawCollection(l.files, l.rawdates, code.value, satellite, product, temporal, |l.files|, l.files[0], filename))
  }

  /** All input products share the suffix of the first sorted product. */
  lemma SharedSuffix(files: seq<string>, sortedFiles: seq<string>, pat: Patterns)
    requires multiset(sortedFiles) == multiset(files)
    requires |SuffixSet(Products(sortedFiles, pat))| == 1
    ensures |sortedFiles| > 0
    ensures forall i :: 0 <= i < |files| ==> Suffix(ProductOf(files[i], pat)) == Suffix(ProductOf(sortedFiles[0], pat))
  {
    var products := Products(sortedFiles, pat);
    OneSuffixIffShared(products);
    ProductSetsOfPermutation(sortedFiles, files, pat);
    forall i | 0 <= i < |files|
      ensures Suffix(ProductOf(files[i], pat)) == Suffix(products[0])
    {
      assert Products(files, pat)[i] == ProductOf(files[i], pat);
      SingletonMembers(SuffixSet(products), Suffix(ProductOf(files[i], pat)), Suffix(products[0]));
    }
  }

  /** With one suffix and one satellite, every input file has the product of
      the first sorted file. */
  lemma SingleProduct(files: seq<string>, sortedFiles: seq<string>, pat: Patterns)
    requires multiset(sortedFiles) == multiset(files)
    requires |SuffixSet(Products(sortedFiles, pat))| == 1 && |SatelliteSet(Products(sortedFiles, pat))| == 1
    ensures forall i :: 0 <= i < |files| ==> ProductOf(files[i], pat) == ProductOf(sortedFiles[0], pat)
  {
    var products := Products(sortedFiles, pat);
    OneSatelliteOneProduct(products);
    forall i | 0 <= i < |files|
      ensures ProductOf(files[i], pat) == products[0]
    {
      assert files[i] in multiset(sortedFiles);
      var j :| 0 <= j < |sortedFiles| && sortedFiles[j] == files[i];
      assert products[j] == ProductOf(files[i], pat);
    }
  }

  /** The sorted listing without its superseded entries: what lines 60-104
      leave in `files` and `rawdates`. */
  function Newest(files: seq<string>, pat: Patterns): (r: Listing)
    ensures |r.files| == |r.rawdates|
    ensures |files| > 0 ==> |r.files| > 0
  {
    var sorted := SortByDate(files, pat);
    var ts := Timestamps(sorted.files, pat);
    var gone := Superseded(sorted.rawdates, ts);
    var l := Listing(RemoveAt(sorted.files, gone), RemoveAt(sorted.rawdates, gone));
    if |files| == 0 then l
    else RemovalKeepsSome(sorted.rawdates, ts); l
  }

  /** The assertion of line 107 holds for the sorted listing. */
  ghost predicate NewestUnique(files: seq<string>, pat: Patterns) {
    var sorted := SortByDate(files, pat);
    UniqueMax(sorted.rawdates, Timestamps(sorted.files, pat))
  }

  /** A kept entry is at least as new as any entry of its date. */
  lemma KeptIsNewest(sorted: Listing, ts: seq<int>, pat: Patterns, keep: seq<nat>, k: nat, j: nat)
    requires Aligned(sorted, pat) && ts == Timestamps(sorted.files, pat)
    requires keep == KeptIndices(|sorted.files|, Superseded(sorted.rawdates, ts))
    requires k < |keep| && j < |sorted.files| && sorted.rawdates[j] == sorted.rawdates[keep[k]]
    ensures pat.timestamp(sorted.files[j]) <= pat.timestamp(sorted.files[keep[k]])
  {
    assert ts[j] <= MaxTs(sorted.rawdates, ts, sorted.rawdates[j]);
    assert ts[j] == pat.timestamp(sorted.files[j]);
    assert ts[keep[k]] == pat.timestamp(sorted.files[keep[k]]);
  }

  /** The kept entry `k` is at least as new as the input file `i` of its date. */
  lemma NewestBeats(files: seq<string>, pat: Patterns, k: nat, i: nat)
    requires k < |Newest(files, pat).files| && i < |files|
    requires pat.date(files[i]) == Newest(files, pat).rawdates[k]
    ensures pat.timestamp(files[i]) <= pat.timestamp(Newest(files, pat).files[k])
  {
    var sorted := SortByDate(files, pat);
    var ts := Timestamps(sorted.files, pat);
    var keep := KeptIndices(|sorted.files|, Superseded(sorted.rawdates, ts));
    var l := Newest(files, pat);
    assert l.files[k] == sorted.files[keep[k]] && l.rawdates[k] == sorted.rawdates[keep[k]];
    assert files[i] in multiset(sorted.files);
    var j :| 0 <= j < |sorted.files| && sorted.files[j] == files[i];
    KeptIsNewest(sorted, ts, pat, keep, k, j);
  }

  /** Every kept file is at least as recently processed as every input file
      of its date, and every input date keeps a file. */
  lemma NewestKeepsNewest(files: seq<string>, pat: Patterns)
    ensures var l := Newest(files, pat);
      forall k, i :: 0 <= k < |l.files| && 0 <= i < |files| && pat.date(files[i]) == l.rawdates[k] ==>
        pat.timestamp(files[i]) <= pat.timestamp(l.files[k])
    ensures forall i :: 0 <= i < |files| ==> pat.date(files[i]) in Newest(files, pat).rawdates
  {
    var l := Newest(files, pat);
    forall k, i | 0 <= k < |l.files| && 0 <= i < |files| && pat.date(files[i]) == l.rawdates[k]
      ensures pat.timestamp(files[i]) <= pat.timestamp(l.files[k])
    {
      NewestBeats(files, pat, k, i);
    }
    DatesCovered(files, pat, l);
  }

  /** Lines 55-107: check, sort and de-duplicate the files. Besides the
      listing it returns the sorted files before de-duplication, from which
      `products` is read. */
  method Arrange(files: seq<string>, pat: Patterns) returns (r: Result<(Listing, seq<string>), CollectError>)
    ensures FirstUnsupported(files, pat).Some? ==> r == Err(NotVimOrLst(files[FirstUnsupported(files, pat).value]))
    ensures FirstUnsupported(files, pat).None? && |SuffixSet(Products(files, pat))| != 1 ==> r == Err(MixedProducts)
    // line 107: past line 72, it fails exactly when a date keeps two newest entries
    ensures FirstUnsupported(files, pat).None? && |SuffixSet(Products(files, pat))| == 1 ==>
      && (r.Ok? <==> NewestUnique(files, pat))
      && (r.Err? ==> r == Err(DuplicatesRemain))
    // the listing keeps exactly the newest entry of every date
    ensures r.Ok? ==> r.value == (Newest(files, pat), SortByDate(files, pat).files)
    ensures r.Ok? ==>
      var (l, sortedFiles) := r.value;
      && FirstUnsupported(files, pat).None?
      && multiset(sortedFiles) == multiset(files)
      && |SuffixSet(Products(sortedFiles, pat))| == 1
      && Aligned(l, pat) && Sorted(l.rawdates, StrLe) && Distinct(l.rawdates)
      && |l.files| > 0
      && multiset(l.files) <= multiset(files)
      && (forall i :: 0 <= i < |files| ==> pat.date(files[i]) in l.rawdates)
  {
    var bad := FirstUnsupported(files, pat);
    if bad.Some? {
      return Err(NotVimOrLst(files[bad.value]));
    }
    var sorted := SortByDate(files, pat);
    ProductSetsOfPermutation(sorted.files, files, pat);
    if |SuffixSet(Products(sorted.files, pat))| != 1 {
      return Err(MixedProducts);
    }
    OneSuffixIffShared(Products(sorted.files, pat));
    var dedup := RemoveDuplicates(sorted, pat);
    if dedup.Err? {
      return Err(dedup.error);
    }
    var l := dedup.value;
    DatesCovered(files, pat, l);
    assert multiset(l.files) <= multiset(sorted.files) by {
      RemovalIsSubset(sorted.files, Superseded(sorted.rawdates, Timestamps(sorted.files, pat)));
    }
    r := Ok((l, sorted.files));
  }

  /** Lines 55-107 raise nothing (line 72 needs at least one file). */
  ghost predicate Arrangeable(files: seq<string>, pat: Patterns) {
    && FirstUnsupported(files, pat).None?
    && |SuffixSet(Products(files, pat))| == 1
    && |files| > 0
    && NewestUnique(files, pat)
  }

  /** The name the product code is inferred from (line 111): the first file
      after de-duplication, before any cutoff. */
  function CodeSource(files: seq<string>, pat: Patterns): string
    requires |files| > 0
  {
    Basename(Newest(files, pat).files[0])
  }

  /** Code, satellite and product as lines 109-154 settle them, or the
      exception raised there. */
  function Settle(files: seq<string>, vam: Option<string>, interleave: bool, pat: Patterns, tables: Tables)
    : Result<(Option<string>, string, string), CollectError>
    requires |files| > 0
  {
    var code :- ResolveCode(vam, CodeSource(files, pat), pat, tables);
    var chosen :- SelectProduct(Products(SortByDate(files, pat).files, pat), code, interleave);
    Ok((code, chosen.0, chosen.1))
  }

  /** Lines 156-173 raise nothing for a settled code, satellite and product. */
  predicate Nameable(s: (Option<string>, string, string), pat: Patterns, tables: Tables) {
    SliceTo(s.2, 5) in tables.temporal && FileCode(s.0, s.1, s.2, pat, tables).Ok?
  }

  /** The listing the constructor keeps: with interleave, after the cutoff. */
  function KeptListing(files: seq<string>, interleave: bool, pat: Patterns): Listing
    requires |files| > 0
  {
    if interleave then CutListing(Newest(files, pat)) else Newest(files, pat)
  }

  /** What lines 109-154 promise about a settled code, satellite and product. */
  lemma SettledFacts(files: seq<string>, sortedFiles: seq<string>, vam: Option<string>, interleave: bool, pat: Patterns, tables: Tables)
    requires |files| > 0 && sortedFiles == SortByDate(files, pat).files
    requires |SuffixSet(Products(sortedFiles, pat))| == 1
    requires Settle(files, vam, interleave, pat, tables).Ok?
    ensures var (code, satellite, product) := Settle(files, vam, interleave, pat, tables).value;
      && code == ResolveCode(vam, CodeSource(files, pat), pat, tables).value
      && (vam.Some? ==> vam.value in tables.vamCodes && code == vam)
      && (!interleave ==>
           && (forall i :: 0 <= i < |files| ==> ProductOf(files[i], pat) == product)
           && satellite == Prefix(product))
      && (interleave ==>
           && code == Some("VIM")
           && satellite == "MXD"
           && |SatelliteSet(Products(files, pat))| == 2
           && (forall i :: 0 <= i < |files| ==> product == "MXD" + Suffix(ProductOf(files[i], pat))))
  {
    var products := Products(sortedFiles, pat);
    SharedSuffix(files, sortedFiles, pat);
    ProductSetsOfPermutation(sortedFiles, files, pat);
    if !interleave {
      SingleProduct(files, sortedFiles, pat);
    }
  }

  /** The kept listing is aligned, sorted, without repeats, non-empty and
      drawn from the input; with interleave it starts at the Aqua start or is
      one file, and keeps every date from there on; without, every date. */
  lemma KeptListingShape(files: seq<string>, l: Listing, interleave: bool, pat: Patterns)
    requires |files| > 0 && l == Newest(files, pat)
    requires Aligned(l, pat) && Sorted(l.rawdates, StrLe) && Distinct(l.rawdates)
    requires multiset(l.files) <= multiset(files)
    requires forall i :: 0 <= i < |files| ==> pat.date(files[i]) in l.rawdates
    ensures var c := KeptListing(files, interleave, pat);
      && Aligned(c, pat) && Sorted(c.rawdates, StrLe) && Distinct(c.rawdates)
      && 0 < |c.files| && multiset(c.files) <= multiset(files)
      && (!interleave ==> forall i :: 0 <= i < |files| ==> pat.date(files[i]) in c.rawdates)
      && (interleave ==>
           && (|c.rawdates| == 1 || StrLe(AquaStart, c.rawdates[0]))
           && (StrLe(AquaStart, c.rawdates[0]) ==> forall j :: 0 <= j < |c.rawdates| ==> StrLe(AquaStart, c.rawdates[j]))
           && (forall i :: 0 <= i < |files| && StrLe(AquaStart, pat.date(files[i])) ==> pat.date(files[i]) in c.rawdates))
  {
    if interleave {
      CutListingShape(l, pat);
      CutListingAqua(l);
      CutListingKeepsLate(l);
    }
  }

  /** Lines 109-181 on the arranged listing `l` and the sorted files. */
  method Conclude(files: seq<string>, l: Listing, sortedFiles: seq<string>, targetdir: string, vam: Option<string>,
                  interleave: bool, pat: Patterns, tables: Tables)
    returns (r: Result<RawCollection, CollectError>)
    requires Arrangeable(files, pat)
    requires l == Newest(files, pat) && sortedFiles == SortByDate(files, pat).files
    requires multiset(sortedFiles) == multiset(files)
    requires |SuffixSet(Products(sortedFiles, pat))| == 1
    requires Aligned(l, pat) && Sorted(l.rawdates, StrLe) && Distinct(l.rawdates)
    requires |l.files| > 0 && multiset(l.files) <= multiset(files)
    requires forall i :: 0 <= i < |files| ==> pat.date(files[i]) in l.rawdates
    ensures r.Ok? ==>
      var c := r.value;
      && |files| > 0
      && (forall i :: 0 <= i < |files| ==> pat.isVimLst(Basename(files[i])))
      && 0 < c.nfiles == |c.files| == |c.rawdates|
      && Aligned(Listing(c.files, c.rawdates), pat)
      && Sorted(c.rawdates, StrLe)
      && Distinct(c.rawdates)
      && multiset(c.files) <= multiset(files)
      && c.referenceFile == c.files[0]
      && (vam.Some? ==> vam.value in tables.vamCodes && c.vamCode == vam.value)
      && SliceTo(c.product, 5) in tables.temporal
      && c.temporal == tables.temporal[SliceTo(c.product, 5)]
      && FileCode(Some(c.vamCode), c.satellite, c.product, pat, tables).Ok?
      && c.filename == OutputName(targetdir, FileCode(Some(c.vamCode), c.satellite, c.product, pat, tables).value,
                                  c.product, TileVersion(Basename(c.referenceFile), pat))
    // without interleaving: one product, every date kept
    ensures r.Ok? && !interleave ==>
      var c := r.value;
      && (forall i :: 0 <= i < |files| ==> ProductOf(files[i], pat) == c.product)
      && c.satellite == Prefix(c.product)
      && (forall i :: 0 <= i < |files| ==> pat.date(files[i]) in c.rawdates)
    // with interleaving: MOD and MYD become MXD, dates before Aqua are dropped
    ensures r.Ok? && interleave ==>
      var c := r.value;
      && c.vamCode == "VIM"
      && c.satellite == "MXD"
      && |SatelliteSet(Products(files, pat))| == 2
      && (forall i :: 0 <= i < |files| ==> c.product == "MXD" + Suffix(ProductOf(files[i], pat)))
      && (|c.rawdates| == 1 || StrLe(AquaStart, c.rawdates[0]))
      && (StrLe(AquaStart, c.rawdates[0]) ==> forall j :: 0 <= j < |c.rawdates| ==> StrLe(AquaStart, c.rawdates[j]))
      && (forall i :: 0 <= i < |files| && StrLe(AquaStart, pat.date(files[i])) ==> pat.date(files[i]) in c.rawdates)
    // line 122: a supplied code outside VAM_PRODUCT_CODES
    ensures vam.Some? && vam.value !in tables.vamCodes ==> r == Err(UnsupportedCode)
    // lines 122-154: that, or the interleave and satellite assertions
    ensures Settle(files, vam, interleave, pat, tables).Err? ==>
      r == Err(Settle(files, vam, interleave, pat, tables).error)
    // line 156: TEMPORAL_DICT has no entry for the product
    ensures Settle(files, vam, interleave, pat, tables).Ok? ==>
      SliceTo(Settle(files, vam, interleave, pat, tables).value.2, 5) !in tables.temporal ==> r == Err(UnknownTemporal)
    // lines 165-173: no code inferred, no LST name, or a code that does not fit the product
    ensures Settle(files, vam, interleave, pat, tables).Ok? ==>
      var (code, satellite, product) := Settle(files, vam, interleave, pat, tables).value;
      SliceTo(product, 5) in tables.temporal && FileCode(code, satellite, product, pat, tables).Err? ==>
        r == Err(FileCode(code, satellite, product, pat, tables).error)
    // it succeeds exactly when none of the above raises
    ensures r.Ok? <==>
      && Settle(files, vam, interleave, pat, tables).Ok?
      && Nameable(Settle(files, vam, interleave, pat, tables).value, pat, tables)
    // without a code, it is inferred from the first de-duplicated file
    ensures r.Ok? && vam.None? ==>
      && (pat.isVim(CodeSource(files, pat)) || pat.isLst(CodeSource(files, pat)))
      && r.value.vamCode == (if pat.isVim(CodeSource(files, pat)) then "VIM" else "LTD")
    // the newest entry of every date, after the cutoff when interleaving
    ensures r.Ok? ==>
      var c := r.value;
      && |files| > 0
      && Listing(c.files, c.rawdates) == KeptListing(files, interleave, pat)
      && Settle(files, vam, interleave, pat, tables) == Ok((Some(c.vamCode), c.satellite, c.product))
  {
    var settled := Settle(files, vam, interleave, pat, tables);
    if settled.Err? {
      return Err(settled.error);
    }
    var (code, satellite, product) := settled.value;
    SettledFacts(files, sortedFiles, vam, interleave, pat, tables);
    var kept := KeptListing(files, interleave, pat);
    KeptListingShape(files, l, interleave, pat);
    r := Finish(kept, code, satellite, product, targetdir, pat, tables);
  }

  /** `ModisRawH5(files, targetdir, vam_product_code, interleave)`. The target
      directory is taken as already normalised by `Path`. */
  method Collect(files: seq<string>, targetdir: string, vam: Option<string>, interleave: bool, pat: Patterns, tables: Tables)
    returns (r: Result<RawCollection, CollectError>)
    // lines 55-58: the first unsupported file raises
    ensures FirstUnsupported(files, pat).Some? ==> r == Err(NotVimOrLst(files[FirstUnsupported(files, pat).value]))
    // line 72: no files, or products that differ after the prefix
    ensures FirstUnsupported(files, pat).None? && |SuffixSet(Products(files, pat))| != 1 ==> r == Err(MixedProducts)
    ensures r.Ok? ==>
      var c := r.value;
      && |files| > 0
      && (forall i :: 0 <= i < |files| ==> pat.isVimLst(Basename(files[i])))
      && 0 < c.nfiles == |c.files| == |c.rawdates|
      && Aligned(Listing(c.files, c.rawdates), pat)
      && Sorted(c.rawdates, StrLe)
      && Distinct(c.rawdates)
      && multiset(c.files) <= multiset(files)
      && c.referenceFile == c.files[0]
      && (vam.Some? ==> vam.value in tables.vamCodes && c.vamCode == vam.value)
      && SliceTo(c.product, 5) in tables.temporal
      && c.temporal == tables.temporal[SliceTo(c.product, 5)]
      && FileCode(Some(c.vamCode), c.satellite, c.product, pat, tables).Ok?
      && c.filename == OutputName(targetdir, FileCode(Some(c.vamCode), c.satellite, c.product, pat, tables).value,
                                  c.product, TileVersion(Basename(c.referenceFile), pat))
    // without interleaving: one product, every date kept
    ensures r.Ok? && !interleave ==>
      var c := r.value;
      && (forall i :: 0 <= i < |files| ==> ProductOf(files[i], pat) == c.product)
      && c.satellite == Prefix(c.product)
      && (forall i :: 0 <= i < |files| ==> pat.date(files[i]) in c.rawdates)
    // with interleaving: MOD and MYD become MXD, dates before Aqua are dropped
    ensures r.Ok? && interleave ==>
      var c := r.value;
      && c.vamCode == "VIM"
      && c.satellite == "MXD"
      && |SatelliteSet(Products(files, pat))| == 2
      && (forall i :: 0 <= i < |files| ==> c.product == "MXD" + Suffix(ProductOf(files[i], pat)))
      && (|c.rawdates| == 1 || StrLe(AquaStart, c.rawdates[0]))
      && (StrLe(AquaStart, c.rawdates[0]) ==> forall j :: 0 <= j < |c.rawdates| ==> StrLe(AquaStart, c.rawdates[j]))
      && (forall i :: 0 <= i < |files| && StrLe(AquaStart, pat.date(files[i])) ==> pat.date(files[i]) in c.rawdates)
    // line 107: a date keeps two entries with its newest timestamp
    ensures FirstUnsupported(files, pat).None? && |SuffixSet(Products(files, pat))| == 1 && !NewestUnique(files, pat) ==>
      r == Err(DuplicatesRemain)
    // line 122: a supplied code outside VAM_PRODUCT_CODES
    ensures Arrangeable(files, pat) && vam.Some? && vam.value !in tables.vamCodes ==> r == Err(UnsupportedCode)
    // lines 122-154: that, or the interleave and satellite assertions
    ensures Arrangeable(files, pat) && Settle(files, vam, interleave, pat, tables).Err? ==>
      r == Err(Settle(files, vam, interleave, pat, tables).error)
    // line 156: TEMPORAL_DICT has no entry for the product
    ensures Arrangeable(files, pat) && Settle(files, vam, interleave, pat, tables).Ok? ==>
      SliceTo(Settle(files, vam, interleave, pat, tables).value.2, 5) !in tables.temporal ==> r == Err(UnknownTemporal)
    // lines 165-173: no code inferred, no LST name, or a code that does not fit the product
    ensures Arrangeable(files, pat) && Settle(files, vam, interleave, pat, tables).Ok? ==>
      var (code, satellite, product) := Settle(files, vam, interleave, pat, tables).value;
      SliceTo(product, 5) in tables.temporal && FileCode(code, satellite, product, pat, tables).Err? ==>
        r == Err(FileCode(code, satellite, product, pat, tables).error)
    // it succeeds exactly when none of the above raises
    ensures r.Ok? <==>
      && Arrangeable(files, pat)
      && Settle(files, vam, interleave, pat, tables).Ok?
      && Nameable(Settle(files, vam, interleave, pat, tables).value, pat, tables)
    // without a code, it is inferred from the first de-duplicated file
    ensures r.Ok? && vam.None? ==>
      && (pat.isVim(CodeSource(files, pat)) || pat.isLst(CodeSource(files, pat)))
      && r.value.vamCode == (if pat.isVim(CodeSource(files, pat)) then "VIM" else "LTD")
    // the newest entry of every date, after the cutoff when interleaving
    ensures r.Ok? ==>
      var c := r.value;
      && |files| > 0
      && Listing(c.files, c.rawdates) == KeptListing(files, interleave, pat)
      && Settle(files, vam, interleave, pat, tables) == Ok((Some(c.vamCode), c.satellite, c.product))
  {
    var arranged := Arrange(files, pat);
    if arranged.Err? {
      return Err(arranged.error);
    }
    var (l, sortedFiles) := arranged.value;
    r := Conclude(files, l, sortedFiles, targetdir, vam, interleave, pat, tables);
  }
}
