/** The decision logic of the smoothing driver `ModisSmoothH5`
    (modape/modis/smooth.py):
    - the name of the smoothed file;
    - the checks on the arguments of `smooth`;
    - which pixels of a chunk are smoothed;
    - which Whittaker kernel each pixel gets, and with which λ or λ grid;
    - how λ is kept on a log10 scale in the `sgrid` dataset;
    - the processing metadata written to the file.
    The kernels, `lag1corr`, `10**x` and `np.log10` are parameters (`Kernels`). */
module Smooth {

  import opened Results
  import opened PyText
  import Collect

  // ---------------------------------------------------------------------
  // The smoothed file (lines 46-69)

  /** What the constructor derives from `tempint`. */
  datatype Interpolation = Interpolation(txflag: string, tinterpolate: bool, temporalResolution: Option<int>)

  /** `tempint` is `None` or a value whose `int()` is given; `labels` is
      `TEMPINT_LABELS`. A step without a label is a custom one, flag `"c"`. */
  function ParseTempint(tempint: Option<int>, labels: map<int, string>): (r: Interpolation)
    ensures r.tinterpolate <==> tempint.Some?
    ensures r.temporalResolution == tempint
    ensures tempint.None? ==> r.txflag == "n"
    ensures tempint.Some? && tempint.value in labels ==> r.txflag == labels[tempint.value]
    ensures tempint.Some? && tempint.value !in labels ==> r.txflag == "c"
  {
    match tempint
    case None => Interpolation("n", false, None)
    case Some(t) => Interpolation(if t in labels then labels[t] else "c", true, tempint)
  }

  /** The smoothed file's name without `.h5`, from the raw file's name. */
  function SmoothStem(rawname: string, txflag: string): string {
    var parts := Split(rawname, '.');
    Join(SliceTo(parts, -2) + ["tx" + txflag] + Slice(parts, -2, -1), '.')
  }

  /** `f"{targetdir}/{smoothfile_trunk}.h5"` for the raw file at `rawfile`. */
  function SmoothFilename(rawfile: string, targetdir: string, txflag: string): string {
    targetdir + "/" + SmoothStem(Basename(rawfile), txflag) + ".h5"
  }

  /** The dot-parts of the smoothed stem are those of the raw name without its
      last two, then `"tx"+flag`, then the raw name's second-to-last part. */
  lemma SmoothStemParts(rawname: string, txflag: string)
    requires '.' !in txflag
    ensures var parts := Split(rawname, '.');
      Split(SmoothStem(rawname, txflag), '.') ==
        if |parts| >= 2 then parts[..|parts| - 2] + ["tx" + txflag] + [parts[|parts| - 2]]
        else ["tx" + txflag]
  {
    var parts := Split(rawname, '.');
    var n := |parts|;
    var flag := "tx" + txflag;
    SplitPiecesHaveNoSep(rawname, '.');
    assert '.' !in flag by {
      assert flag == ['t', 'x'] + txflag;
    }
    var pieces := SliceTo(parts, -2) + [flag] + Slice(parts, -2, -1);
    if n >= 2 {
      assert SliceTo(parts, -2) == parts[..n - 2];
      assert Slice(parts, -2, -1) == [parts[n - 2]];
      assert pieces == parts[..n - 2] + [flag] + [parts[n - 2]];
      assert NoSep(pieces, '.') by {
        forall i | 0 <= i < |pieces|
          ensures '.' !in pieces[i]
        {
          if i < n - 2 {
            assert pieces[i] == parts[i];
          } else if i == n - 2 {
            assert pieces[i] == flag;
          } else {
            assert pieces[i] == parts[n - 2];
          }
        }
      }
    } else {
      assert SliceTo(parts, -2) == [];
      assert Slice(parts, -2, -1) == [];
      assert pieces == [flag];
    }
    SplitJoin(pieces, '.');
  }

  /** The smoothed file of a raw file that `ModisRawH5` named
      `<product>.<tile>.<version>.<fn_code>.h5` is named
      `<product>.<tile>.<version>.tx<flag>.<fn_code>.h5`. */
  lemma SmoothNameOfCollected(rawdir: string, fnCode: string, product: string, tileVersion: string,
                              targetdir: string, txflag: string)
    requires '/' !in fnCode && '/' !in product && '/' !in tileVersion
    requires '.' !in fnCode
    ensures SmoothFilename(Collect.OutputName(rawdir, fnCode, product, tileVersion), targetdir, txflag) ==
      targetdir + "/" + product + "." + tileVersion + "." + ("tx" + txflag) + "." + fnCode + ".h5"
  {
    Collect.OutputNameLayout(rawdir, fnCode, product, tileVersion);
    var stem := product + "." + tileVersion;
    assert product + "." + tileVersion + "." + fnCode + ".h5" == stem + ['.'] + (fnCode + ['.'] + "h5");
    SmoothStemOfRaw(stem, fnCode, txflag);
  }

  /** The smoothed stem of `<stem>.<code>.h5` is `<stem>.tx<flag>.<code>`. */
  lemma SmoothStemOfRaw(stem: string, code: string, txflag: string)
    requires '.' !in code
    ensures SmoothStem(stem + ['.'] + (code + ['.'] + "h5"), txflag) == stem + ['.'] + (("tx" + txflag) + ['.'] + code)
  {
    var s := Split(stem, '.');
    RawParts(stem, code);
    SlicesOfParts(s, code, "h5", "tx" + txflag);
    JoinTail(s, "tx" + txflag, code, '.');
    JoinSplit(stem, '.');
  }

  /** The dot-parts of `<stem>.<code>.h5`. */
  lemma RawParts(stem: string, code: string)
    requires '.' !in code
    ensures Split(stem + ['.'] + (code + ['.'] + "h5"), '.') == Split(stem, '.') + [code, "h5"]
  {
    SplitAppend(stem, code + ['.'] + "h5", '.');
    SplitAppend(code, "h5", '.');
    SplitNoSep(code, '.');
    SplitNoSep("h5", '.');
  }

  /** `parts[:-2] + [flag] + parts[-2:-1]` on a list ending in `x, y`. */
  lemma SlicesOfParts<T>(s: seq<T>, x: T, y: T, flag: T)
    ensures SliceTo(s + [x, y], -2) + [flag] + Slice(s + [x, y], -2, -1) == s + [flag, x]
  {
    var parts := s + [x, y];
    assert SliceTo(parts, -2) == s;
    assert Slice(parts, -2, -1) == [x];
  }

  /** Joining a non-empty list followed by two more pieces. */
  lemma JoinTail(s: seq<string>, x: string, y: string, c: char)
    requires |s| > 0
    ensures Join(s + [x, y], c) == Join(s, c) + [c] + (x + [c] + y)
  {
    JoinAppend(s, [x, y], c);
    assert [x, y][1..] == [y];
  }

  // ---------------------------------------------------------------------
  // Arguments of `smooth` (lines 163-169, 181, 223-236)

  /** `srange` as passed: a NumPy array or some other sequence of values. */
  datatype SRange = NdArray(values: seq<real>) | OtherSequence(values: seq<real>)

  /** The keyword arguments of `smooth`; `soptimize=None` is falsy. */
  datatype Options = Options(svalue: Option<real>, p: Option<real>, soptimize: bool,
                             srange: Option<SRange>, nsmooth: int, nupdate: int)

  /** The exceptions `smooth` raises: the two `ValueError`s of its argument
      check and the `UnboundLocalError` of an unassigned `sr`. */
  datatype SmoothError = NsmoothBelowNupdate | SrangeNotArray | SrUnbound

  /** `nsmooth` and `nupdate` are only compared when both are non-zero. */
  predicate CountsAccepted(nsmooth: int, nupdate: int) {
    nsmooth == 0 || nupdate == 0 || nsmooth >= nupdate
  }

  /** The argument check before any data is read. */
  function CheckArguments(o: Options): (r: Result<(), SmoothError>)
    ensures r == Err(NsmoothBelowNupdate) <==> !CountsAccepted(o.nsmooth, o.nupdate)
    ensures r == Err(SrangeNotArray) <==>
      CountsAccepted(o.nsmooth, o.nupdate) && o.soptimize && o.srange.Some? && o.srange.value.OtherSequence?
    ensures r.Ok? <==> CountsAccepted(o.nsmooth, o.nupdate) && !(o.soptimize && o.srange.Some? && o.srange.value.OtherSequence?)
  {
    if o.nsmooth != 0 && o.nupdate != 0 && o.nsmooth < o.nupdate then Err(NsmoothBelowNupdate)
    else if o.soptimize && o.srange.Some? && !o.srange.value.NdArray? then Err(SrangeNotArray)
    else Ok(())
  }

  /** `raw_dates_all[-nsmooth:]`: the last `nsmooth` dates, all of them when
      `nsmooth` is 0 or exceeds their number. */
  function DatesToSmooth(rawDatesAll: seq<string>, nsmooth: int): (r: seq<string>)
    ensures nsmooth == 0 ==> r == rawDatesAll
    ensures 0 < nsmooth <= |rawDatesAll| ==> r == rawDatesAll[|rawDatesAll| - nsmooth..]
    ensures nsmooth >= |rawDatesAll| ==> r == rawDatesAll
    ensures nsmooth >= 0 ==> |r| == if nsmooth == 0 || nsmooth > |rawDatesAll| then |rawDatesAll| else nsmooth
  {
    SliceFrom(rawDatesAll, -nsmooth)
  }

  /** The column of the smoothed dataset the chunk is written at. */
  function ArrayOffset(tinterpolate: bool, nsmooth: int, nupdate: int): int {
    if tinterpolate then 0 else nsmooth - nupdate
  }

  /** With non-negative counts that pass the check, the write offset of a run
      without interpolation is negative exactly when `nsmooth` is 0 and
      `nupdate` is not: the check skips that combination. */
  lemma NegativeOffset(o: Options, tinterpolate: bool)
    requires o.nsmooth >= 0 && o.nupdate >= 0
    requires CheckArguments(o).Ok?
    ensures ArrayOffset(tinterpolate, o.nsmooth, o.nupdate) < 0 <==>
      !tinterpolate && o.nsmooth == 0 && o.nupdate > 0
  {
  }

  // ---------------------------------------------------------------------
  // Weights and pixel selection (lines 261-264)

  /** `(arr_raw_chunk != nodata)*1` for one pixel row. */
  function Weights(row: seq<real>, nodata: real): (w: seq<real>)
    ensures |w| == |row|
    ensures forall i :: 0 <= i < |row| ==> (w[i] == 1.0 <==> row[i] != nodata) && (w[i] == 0.0 <==> row[i] == nodata)
  {
    seq(|row|, i requires 0 <= i < |row| => if row[i] != nodata then 1.0 else 0.0)
  }

  function Sum(s: seq<real>): real {
    if |s| == 0 then 0.0 else s[0] + Sum(s[1..])
  }

  /** The number of observations in a pixel row. */
  function ValidCount(row: seq<real>, nodata: real): (n: nat)
    ensures n <= |row|
  {
    if |row| == 0 then 0 else (if row[0] != nodata then 1 else 0) + ValidCount(row[1..], nodata)
  }

  /** The weights of a row add up to its number of observations. */
  lemma {:induction false} WeightsSum(row: seq<real>, nodata: real)
    ensures Sum(Weights(row, nodata)) == ValidCount(row, nodata) as real
    decreases |row|
  {
    if |row| > 0 {
      assert Weights(row, nodata)[1..] == Weights(row[1..], nodata);
      WeightsSum(row[1..], nodata);
    }
  }

  /** Every time step observed exactly when the count is the row's length. */
  lemma {:induction false} ValidCountFull(row: seq<real>, nodata: real)
    ensures ValidCount(row, nodata) == |row| <==> forall i :: 0 <= i < |row| ==> row[i] != nodata
    decreases |row|
  {
    if |row| > 0 {
      ValidCountFull(row[1..], nodata);
      assert forall i :: 0 < i < |row| ==> row[i] == row[1..][i - 1];
    }
  }

  /** No time step observed exactly when the count is zero. */
  lemma {:induction false} ValidCountZero(row: seq<real>, nodata: real)
    ensures ValidCount(row, nodata) == 0 <==> forall i :: 0 <= i < |row| ==> row[i] == nodata
    decreases |row|
  {
    if |row| > 0 {
      ValidCountZero(row[1..], nodata);
      assert forall i :: 0 < i < |row| ==> row[i] == row[1..][i - 1];
    }
  }

  /** `np.sum(wts, 1) >= arr_raw.shape[1] * 0.2` for one pixel: at least a
      fifth of the time steps observed. The double `n * 0.2` rounds to `n / 5`
      when 5 divides `n` and stays between the same integers otherwise, so
      the exact test decides the same way. */
  predicate Selected(row: seq<real>, nodata: real) {
    5 * ValidCount(row, nodata) >= |row|
  }

  /** Selection is the 20% test on the weights. */
  lemma SelectedIsFifthOfWeights(row: seq<real>, nodata: real)
    ensures Selected(row, nodata) <==> Sum(Weights(row, nodata)) >= |row| as real * 0.2
  {
    WeightsSum(row, nodata);
  }

  /** A fully observed row is smoothed; a non-empty row without observations is not. */
  lemma SelectionExtremes(row: seq<real>, nodata: real)
    ensures (forall i :: 0 <= i < |row| ==> row[i] != nodata) ==> Selected(row, nodata)
    ensures |row| > 0 && (forall i :: 0 <= i < |row| ==> row[i] == nodata) ==> !Selected(row, nodata)
  {
    ValidCountFull(row, nodata);
    ValidCountZero(row, nodata);
  }

  /** `np.where(ndix)[0]`: the selected pixels of a chunk, in increasing order. */
  method SelectedPixels(rows: seq<seq<real>>, nodata: real) returns (ix: seq<nat>)
    ensures forall a, b :: 0 <= a < b < |ix| ==> ix[a] < ix[b]
    ensures forall k: nat :: k in ix <==> k < |rows| && Selected(rows[k], nodata)
  {
    ix := [];
    var i := 0;
    while i < |rows|
      invariant 0 <= i <= |rows|
      invariant forall a, b :: 0 <= a < b < |ix| ==> ix[a] < ix[b]
      invariant forall a :: 0 <= a < |ix| ==> ix[a] < i
      invariant forall k: nat :: k in ix <==> k < i && Selected(rows[k], nodata)
    {
      if Selected(rows[i], nodata) {
        ix := ix + [i];
      }
      i := i + 1;
    }
  }

  // ---------------------------------------------------------------------
  // Kernel dispatch and λ grids (lines 247-303)

  /** What `lag1corr` returns: a correlation, or NaN (for which both `> 0.5`
      and `<= 0.5` are false). */
  datatype Corr = Finite(r: real) | NaN

  /** The compiled Whittaker kernels, `lag1corr`, and `10**x` / `np.log10`. */
  datatype Kernels = Kernels(
    ws2d: (seq<real>, real, seq<real>) -> seq<real>,
    ws2dp: (seq<real>, real, seq<real>, real) -> seq<real>,
    ws2doptv: (seq<real>, seq<real>, seq<real>) -> (seq<real>, real),
    ws2doptvp: (seq<real>, seq<real>, seq<real>, real) -> (seq<real>, real),
    lag1corr: (seq<real>, seq<real>, real) -> Corr,
    pow10: real -> real,
    log10: real -> real)

  /** `np.arange(lo/5, (hi+1)/5, 0.2).round(2)`: log10 λ from `lo/5` to `hi/5`
      in steps of 0.2. */
  function Grid(lo: int, hi: int): (g: seq<real>)
    requires lo <= hi
    ensures |g| == hi - lo + 1
    ensures g[0] == lo as real / 5.0 && g[|g| - 1] == hi as real / 5.0
    ensures forall i :: 0 < i < |g| ==> g[i] == g[i - 1] + 0.2
  {
    seq(hi - lo + 1, i requires 0 <= i <= hi - lo => (lo + i) as real / 5.0)
  }

  /** The log10 λ grid the V-curve searches when no `srange` is given: a
      smooth series (lag-1 correlation above 0.5) gets -2..1, a rough one
      0..3, and a NaN correlation -1..1. */
  function LagGrid(c: Corr): (g: seq<real>)
    ensures c.Finite? && c.r > 0.5 ==> |g| == 16 && g[0] == -2.0 && g[15] == 1.0
    ensures c.Finite? && c.r <= 0.5 ==> |g| == 16 && g[0] == 0.0 && g[15] == 3.0
    ensures c.NaN? ==> |g| == 11 && g[0] == -1.0 && g[10] == 1.0
    ensures forall i :: 0 < i < |g| ==> g[i] == g[i - 1] + 0.2
  {
    match c
    case Finite(r) => if r > 0.5 then Grid(-10, 5) else Grid(0, 15)
    case NaN => Grid(-5, 5)
  }

  /** `lag1corr(arr_raw[ix, :-1], arr_raw[ix, 1:], nodata)`. */
  function LagCorrelation(k: Kernels, row: seq<real>, nodata: real): Corr {
    k.lag1corr(SliceTo(row, -1), SliceFrom(row, 1), nodata)
  }

  /** The code as written, or with the corrections of the findings. */
  datatype Variant = AsWritten | Corrected

  /** The kernel call made for one selected pixel. */
  datatype Call = OptVP(llas: seq<real>, p: real) | OptV(llas: seq<real>) | FixedP(lmda: real, p: real) | Fixed(lmda: real)

  /** The `sgrid` dataset is read exactly when λ is optimised or taken from it. */
  predicate ReadsSgrid(o: Options) {
    o.soptimize || o.svalue.None?
  }

  /** The call for one selected pixel, whose stored log10 λ is `stored` and
      whose lag-1 correlation is `corr`. As written, `sr` is assigned only
      when `srange` is None, so a supplied `srange` ends in an unbound `sr`;
      corrected, `srange` is the grid. */
  function Dispatch(v: Variant, o: Options, corr: Corr, stored: real, pow10: real -> real): (r: Result<Call, SmoothError>)
    ensures r.Err? <==> v == AsWritten && o.soptimize && o.srange.Some?
    ensures r.Err? ==> r.error == SrUnbound
    ensures r.Ok? ==> ((r.value.OptVP? || r.value.OptV?) <==> o.soptimize)
    ensures r.Ok? ==> ((r.value.OptVP? || r.value.FixedP?) <==> o.p.Some?)
    ensures r.Ok? && o.p.Some? ==> r.value.p == o.p.value
    ensures r.Ok? && !o.soptimize ==> r.value.lmda == pow10(if o.svalue.Some? then o.svalue.value else stored)
    ensures r.Ok? && o.soptimize ==> r.value.llas == if o.srange.Some? then o.srange.value.values else LagGrid(corr)
  {
    if o.soptimize then
      if o.srange.Some? && v == AsWritten then Err(SrUnbound)
      else
        var sr := if o.srange.Some? then o.srange.value.values else LagGrid(corr);
        Ok(if o.p.Some? then OptVP(sr, o.p.value) else OptV(sr))
    else
      var s := pow10(if o.svalue.None? then stored else o.svalue.value);
      Ok(if o.p.None? then Fixed(s) else FixedP(s, o.p.value))
  }

  /** The stored grid value only matters when the grid is read. */
  lemma SgridOnlyMattersWhenRead(v: Variant, o: Options, corr: Corr, g1: real, g2: real, pow10: real -> real)
    requires !(!o.soptimize && o.svalue.None?)
    ensures Dispatch(v, o, corr, g1, pow10) == Dispatch(v, o, corr, g2, pow10)
  {
  }

  /** The smoothed row and, for the V-curve kernels, the λ they chose. */
  function Run(k: Kernels, c: Call, y: seq<real>, w: seq<real>): (seq<real>, Option<real>) {
    match c
    case OptVP(llas, p) => var (z, l) := k.ws2doptvp(y, w, llas, p); (z, Some(l))
    case OptV(llas) => var (z, l) := k.ws2doptv(y, w, llas); (z, Some(l))
    case FixedP(lmda, p) => (k.ws2dp(y, lmda, w, p), None)
    case Fixed(lmda) => (k.ws2d(y, lmda, w), None)
  }

  /** The λ a call smooths with: the fixed one, or the one the V-curve chose. */
  function LambdaUsed(c: Call, chosen: Option<real>): real {
    match c
    case Fixed(lmda) => lmda
    case FixedP(lmda, _) => lmda
    case _ => if chosen.Some? then chosen.value else 0.0
  }

  /** One selected pixel: its smoothed row and what `arr_sgrid[ix]` holds
      afterwards, before the chunk's grid is written back. */
  function SmoothPixel(v: Variant, k: Kernels, o: Options, y: seq<real>, nodata: real, stored: real)
    : (r: Result<(seq<real>, real), SmoothError>)
    ensures r.Err? <==> v == AsWritten && o.soptimize && o.srange.Some?
    ensures r.Ok? && !o.soptimize ==> r.value.1 == stored
  {
    var call :- Dispatch(v, o, LagCorrelation(k, y, nodata), stored, k.pow10);
    var (z, chosen) := Run(k, call, y, Weights(y, nodata));
    Ok((z, if chosen.Some? then chosen.value else stored))
  }

  // ---------------------------------------------------------------------
  // The λ grid written back (lines 330-343)

  /** `arr_sgrid[arr_sgrid > 0] = np.log10(arr_sgrid[arr_sgrid > 0])` on one entry. */
  function LogPositive(x: real, log10: real -> real): real {
    if x > 0.0 then log10(x) else x
  }

  /** The `sgrid` value of one pixel after its chunk is written, from the
      value it had when read (`stored`) and after smoothing (`after`). As
      written, every entry of a grid that was read is taken through log10;
      corrected, only a λ the V-curve chose is, and every other entry keeps
      the log10 λ it was read with. */
  function StoredAfter(v: Variant, o: Options, smoothed: bool, stored: real, after: real, log10: real -> real): (r: real)
    ensures !ReadsSgrid(o) ==> r == stored
    ensures v == AsWritten && ReadsSgrid(o) && after > 0.0 ==> r == log10(after)
    ensures v == Corrected && !(o.soptimize && smoothed) ==> r == stored
    ensures v == Corrected && o.soptimize && smoothed && after > 0.0 ==> r == log10(after)
  {
    if !ReadsSgrid(o) then stored
    else if v == AsWritten || (o.soptimize && smoothed) then LogPositive(after, log10)
    else stored
  }

  /** One chunk of pixel rows: the selected rows are smoothed with the
      dispatched kernel, the others are kept, and the `sgrid` values are
      those written back (equal to the stored ones when the grid is not read). */
  method SmoothChunk(v: Variant, k: Kernels, o: Options, rows: seq<seq<real>>, sgrid: seq<real>, nodata: real)
    returns (r: Result<(seq<seq<real>>, seq<real>), SmoothError>)
    requires |sgrid| == |rows|
    ensures r.Err? <==>
      v == AsWritten && o.soptimize && o.srange.Some? && exists i :: 0 <= i < |rows| && Selected(rows[i], nodata)
    ensures r.Ok? ==> |r.value.0| == |rows| && |r.value.1| == |rows|
    ensures r.Ok? ==> forall i :: 0 <= i < |rows| && !Selected(rows[i], nodata) ==>
      r.value.0[i] == rows[i] && r.value.1[i] == StoredAfter(v, o, false, sgrid[i], sgrid[i], k.log10)
    ensures r.Ok? ==> forall i :: 0 <= i < |rows| && Selected(rows[i], nodata) ==>
      var px := SmoothPixel(v, k, o, rows[i], nodata, sgrid[i]);
      px.Ok? && r.value.0[i] == px.value.0 && r.value.1[i] == StoredAfter(v, o, true, sgrid[i], px.value.1, k.log10)
  {
    var ix := SelectedPixels(rows, nodata);
    var out := rows;
    var after := sgrid;
    var i := 0;
    while i < |rows|
      invariant 0 <= i <= |rows|
      invariant |out| == |rows| && |after| == |rows|
      invariant forall m :: 0 <= m < |rows| && (i <= m || m !in ix) ==> out[m] == rows[m] && after[m] == sgrid[m]
      invariant forall m :: 0 <= m < i && m in ix ==>
        var px := SmoothPixel(v, k, o, rows[m], nodata, sgrid[m]);
        px.Ok? && out[m] == px.value.0 && after[m] == px.value.1
    {
      if i in ix {
        var px := SmoothPixel(v, k, o, rows[i], nodata, sgrid[i]);
        if px.Err? {
          return Err(px.error);
        }
        out := out[i := px.value.0];
        after := after[i := px.value.1];
      }
      i := i + 1;
    }
    var written := seq(|rows|, i requires 0 <= i < |rows| => StoredAfter(v, o, i in ix, sgrid[i], after[i], k.log10));
    ChunkOutcome(v, k, o, rows, sgrid, nodata, ix, out, after, written);
    r := Ok((out, written));
  }

  /** What the loop of `SmoothChunk` leaves, stated per pixel. */
  lemma ChunkOutcome(v: Variant, k: Kernels, o: Options, rows: seq<seq<real>>, sgrid: seq<real>, nodata: real,
                     ix: seq<nat>, out: seq<seq<real>>, after: seq<real>, written: seq<real>)
    requires |sgrid| == |rows| && |out| == |rows| && |after| == |rows| && |written| == |rows|
    requires forall m: nat :: m in ix <==> m < |rows| && Selected(rows[m], nodata)
    requires forall i :: 0 <= i < |rows| && i !in ix ==> out[i] == rows[i] && after[i] == sgrid[i]
    requires forall i :: 0 <= i < |rows| && i in ix ==>
      var px := SmoothPixel(v, k, o, rows[i], nodata, sgrid[i]);
      px.Ok? && out[i] == px.value.0 && after[i] == px.value.1
    requires forall i :: 0 <= i < |rows| ==> written[i] == StoredAfter(v, o, i in ix, sgrid[i], after[i], k.log10)
    ensures !(v == AsWritten && o.soptimize && o.srange.Some? && exists i :: 0 <= i < |rows| && Selected(rows[i], nodata))
    ensures forall i :: 0 <= i < |rows| && !Selected(rows[i], nodata) ==>
      out[i] == rows[i] && written[i] == StoredAfter(v, o, false, sgrid[i], sgrid[i], k.log10)
    ensures forall i :: 0 <= i < |rows| && Selected(rows[i], nodata) ==>
      var px := SmoothPixel(v, k, o, rows[i], nodata, sgrid[i]);
      px.Ok? && out[i] == px.value.0 && written[i] == StoredAfter(v, o, true, sgrid[i], px.value.1, k.log10)
  {
    assert forall i :: 0 <= i < |rows| && Selected(rows[i], nodata) ==> i in ix;
  }

  // ---------------------------------------------------------------------
  // What `sgrid` holds across runs

  /** The laws of the real `10**x` and `log10` the model relies on. */
  ghost predicate LogLaws(k: Kernels) {
    (forall x :: k.pow10(x) > 0.0) &&
    (forall x :: k.log10(k.pow10(x)) == x) &&
    (forall x :: x > 0.0 ==> k.pow10(k.log10(x)) == x)
  }

  /** Corrected, a pixel smoothed in a run that reads the grid is left with
      the log10 of the λ it was smoothed with, so that the next run reading
      the grid smooths it with the same λ. */
  lemma CorrectedGridHoldsLogLambda(k: Kernels, o: Options, y: seq<real>, nodata: real, stored: real)
    requires LogLaws(k)
    requires ReadsSgrid(o)
    requires Dispatch(Corrected, o, LagCorrelation(k, y, nodata), stored, k.pow10).Ok?
    ensures var call := Dispatch(Corrected, o, LagCorrelation(k, y, nodata), stored, k.pow10).value;
      var chosen := Run(k, call, y, Weights(y, nodata)).1;
      var px := SmoothPixel(Corrected, k, o, y, nodata, stored);
      var next := StoredAfter(Corrected, o, true, stored, px.value.1, k.log10);
      LambdaUsed(call, chosen) > 0.0 ==> k.pow10(next) == LambdaUsed(call, chosen)
  {
    var call := Dispatch(Corrected, o, LagCorrelation(k, y, nodata), stored, k.pow10).value;
    var chosen := Run(k, call, y, Weights(y, nodata)).1;
    if o.soptimize {
      assert chosen.Some?;
    }
  }

  /** Corrected, an entry of the grid that is not optimised is written back
      unchanged. */
  lemma CorrectedKeepsUnoptimised(o: Options, smoothed: bool, stored: real, after: real, log10: real -> real)
    requires !(o.soptimize && smoothed) && after == stored
    ensures StoredAfter(Corrected, o, smoothed, stored, after, log10) == stored
  {
  }

  /** As written, a run with λ from the grid re-logs every positive stored
      value: a pixel smoothed with λ = 10^g this time is left with log10 g,
      and the next such run smooths it with λ = g. */
  lemma GridRunRelogs(k: Kernels, o: Options, y: seq<real>, nodata: real, g: real)
    requires LogLaws(k)
    requires !o.soptimize && o.svalue.None?
    requires g > 0.0 && k.log10(g) != g
    ensures var px := SmoothPixel(AsWritten, k, o, y, nodata, g);
      var next := StoredAfter(AsWritten, o, true, g, px.value.1, k.log10);
      next == k.log10(g) && next != g &&
      Dispatch(AsWritten, o, LagCorrelation(k, y, nodata), g, k.pow10).value.lmda == k.pow10(g) &&
      Dispatch(AsWritten, o, LagCorrelation(k, y, nodata), next, k.pow10).value.lmda == g &&
      g != k.pow10(g)
  {
    var next := k.log10(g);
    assert k.pow10(next) == g;
    assert k.log10(k.pow10(g)) == g;
  }

  /** As written, a V-curve run also re-logs the stored value of every pixel
      it does not select; corrected, those are kept. */
  lemma OptimiseRelogsUnselected(o: Options, g: real, log10: real -> real)
    requires o.soptimize && g > 0.0 && log10(g) != g
    ensures StoredAfter(AsWritten, o, false, g, g, log10) == log10(g) != g
    ensures StoredAfter(Corrected, o, false, g, g, log10) == g
  {
  }

  /** As written, a supplied `srange` never reaches the optimiser: the first
      pixel to smooth fails with the unbound `sr`. Corrected, it is the grid
      the V-curve searches. */
  lemma SrangeReachesOptimiser(o: Options, corr: Corr, stored: real, pow10: real -> real)
    requires o.soptimize && o.srange.Some?
    ensures Dispatch(AsWritten, o, corr, stored, pow10) == Err(SrUnbound)
    ensures Dispatch(Corrected, o, corr, stored, pow10).Ok?
    ensures Dispatch(Corrected, o, corr, stored, pow10).value.llas == o.srange.value.values
  {
  }

  // ---------------------------------------------------------------------
  // Processing metadata (lines 348-375)

  /** An HDF5 attribute value. */
  datatype Attr = Text(text: string) | Number(number: real)

  /** How λ was chosen in a run. */
  datatype Mode = Optimised | FromGrid | FixedValue

  function ModeOf(o: Options): Mode {
    if o.soptimize then Optimised else if o.svalue.None? then FromGrid else FixedValue
  }

  /** `" and with P-value of {p}"` when `p` is given; `fmt` is Python's `str` of a float. */
  function PValueSuffix(o: Options, fmt: real -> string): string {
    if o.p.Some? then " and with P-value of " + fmt(o.p.value) else ""
  }

  /** The `lastrun` attribute. */
  function LastRun(o: Options, fmt: real -> string): string {
    (match ModeOf(o)
     case Optimised => "V-curve optimization of s"
     case FromGrid => "fixed s from grid"
     case FixedValue => "fixed s " + fmt(o.svalue.value) + " (log10)") + PValueSuffix(o, fmt)
  }

  /** Reads the mode back from a `lastrun` name. */
  function ModeOfLabel(s: string): Mode {
    if |s| > 0 && s[0] == 'V' then Optimised
    else if |s| >= 17 && s[..17] == "fixed s from grid" then FromGrid
    else FixedValue
  }

  /** The name names the way λ was chosen, provided the formatted `svalue`
      does not itself start with `f` (a Python float never does). */
  lemma LabelNamesMode(o: Options, fmt: real -> string)
    requires o.svalue.Some? ==> |fmt(o.svalue.value)| == 0 || fmt(o.svalue.value)[0] != 'f'
    ensures ModeOfLabel(LastRun(o, fmt)) == ModeOf(o)
  {
    var name := LastRun(o, fmt);
    var tail := PValueSuffix(o, fmt);
    match ModeOf(o)
    case Optimised =>
      assert name[0] == 'V';
    case FromGrid =>
      assert name == "fixed s from grid" + tail;
      assert name[..17] == "fixed s from grid";
    case FixedValue =>
      var s := fmt(o.svalue.value);
      assert name == "fixed s " + s + " (log10)" + tail;
      assert name[0] == 'f';
      assert |name| >= 17 ==> name[8] != 'f' by {
        if |s| > 0 {
          assert name[8] == s[0];
        } else {
          assert name[8] == ' ';
        }
      }
      assert |name| >= 17 ==> name[..17][8] == name[8];
  }

  /** The name names the kernel family that was dispatched and carries the
      P-value exactly when the asymmetric kernel was used. */
  lemma LabelMatchesDispatch(v: Variant, o: Options, corr: Corr, stored: real, k: Kernels, fmt: real -> string)
    requires o.svalue.Some? ==> |fmt(o.svalue.value)| == 0 || fmt(o.svalue.value)[0] != 'f'
    requires Dispatch(v, o, corr, stored, k.pow10).Ok?
    ensures var c := Dispatch(v, o, corr, stored, k.pow10).value;
      (ModeOfLabel(LastRun(o, fmt)) == Optimised <==> c.OptV? || c.OptVP?) &&
      (c.OptVP? || c.FixedP? ==> LastRun(o, fmt) == LastRun(o.(p := None), fmt) + " and with P-value of " + fmt(c.p))
  {
    LabelNamesMode(o, fmt);
  }

  /** `smt_ds.attrs` after the run: `pvalue` deleted when no P-value is
      given, then `lastrun`, `pvalue` (when given) and
      `processingtimestamp` set; every other attribute is kept. */
  function UpdateAttrs(attrs: map<string, Attr>, o: Options, fmt: real -> string, timestamp: string): (r: map<string, Attr>)
    ensures "pvalue" in r <==> o.p.Some?
    ensures o.p.Some? ==> r["pvalue"] == Number(o.p.value)
    ensures "lastrun" in r && r["lastrun"] == Text(LastRun(o, fmt))
    ensures "processingtimestamp" in r && r["processingtimestamp"] == Text(timestamp)
    ensures forall key :: key in attrs && key != "lastrun" && key != "pvalue" && key != "processingtimestamp" ==>
      key in r && r[key] == attrs[key]
    ensures forall key :: key in r ==> key in attrs || key == "lastrun" || key == "pvalue" || key == "processingtimestamp"
  {
    var info := map["lastrun" := Text(LastRun(o, fmt))];
    var info := if o.p.Some? then info["pvalue" := Number(o.p.value)] else info;
    var info := info["processingtimestamp" := Text(timestamp)];
    var kept := if o.p.None? then attrs - {"pvalue"} else attrs;
    kept + info
  }
}
