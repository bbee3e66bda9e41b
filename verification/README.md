# modape raw-collection and smoothing bookkeeping, in Dafny

This project models the list, string and integer logic of two classes of
`modape`, a toolkit that collects MODIS NDVI and LST rasters into HDF5 files
and smooths their time series with a Whittaker filter:

- `ModisRawH5` (modape/modis/collect.py). Its constructor:
  - checks that every input granule is an NDVI (VIM) or LST product;
  - orders the files by acquisition date;
  - drops superseded duplicates, keeping the newest processing timestamp;
  - decides product and satellite, including MOD/MYD interleaving with the Aqua start-date cutoff;
  - derives the output file name.

  `create` checks that the chunk size tiles the raster. `update` merges the
  stored and new date lists and permutes the data columns into date order.
- `ModisSmoothH5` (modape/modis/smooth.py):
  - the smoothed file's name and interpolation flag;
  - the argument checks of `smooth`;
  - the `raw_dates_all[-nsmooth:]` window and the write offset;
  - the weights and the 20% pixel selection;
  - the dispatch to the four Whittaker kernels;
  - the λ grid chosen from the lag-1 correlation;
  - the log10 λ kept in the `sgrid` dataset;
  - the `lastrun`/`pvalue` metadata.

The Whittaker kernels, `lag1corr`, `10**x` and `np.log10` are opaque, passed
in as the function fields of `Smooth.Kernels`. So are the regular expressions
(`Collect.Patterns`) and the constant tables (`Collect.Tables`,
`TEMPINT_LABELS` as a map).

Python strings are `string`. They are compared by `StrOrder.StrLe`, proved to
be a total order. Sorting is `Sorting.SortBy`, and a sorted permutation is
unique (`Sorting.SortedUnique`), so any correct sort gives the same list.

Files:

| file | contents |
|---|---|
| `results.dfy` | `Option` for `None`, `Result` for raised exceptions |
| `sorting.dfy` | orders, sortedness, insertion sort, uniqueness of a sorted permutation |
| `strorder.dfy` | Python's `<=` on `str` and `sorted` on lists of strings |
| `pytext.dfy` | `str.split`/`str.join` with round-trip lemmas, slices with negative and clamped bounds |
| `collect.dfy` | `ModisRawH5.__init__` and the chunk check of `create` |
| `update.dfy` | `ModisRawH5.update`, for one pixel row of the `data` dataset |
| `smooth.dfy` | `ModisSmoothH5.__init__` naming and the decision logic of `smooth` |

## Model

| member | source | states |
|---|---|---|
| Collect.FirstUnsupported | modape/modis/collect.py:55-58 | reports the first file whose base name is not a VIM/LST granule, and reports none iff every file matches |
| Collect.SortByDate | modape/modis/collect.py:60-62 | the sorted file list is a permutation of the input; the dates are non-decreasing and are the multiset of the input's dates; `rawdates[i]` is the date of `files[i]` |
| Collect.SortByDateAligned | modape/modis/collect.py:60-62 | sorting the (date, file) pairs and sorting the dates alone agree position by position, and each pair's date is its file's date |
| Collect.CardDistinct | modape/modis/collect.py:75 | `len(set(rawdates)) <= len(rawdates)`, with equality iff no date repeats |
| Collect.FindDuplicates | modape/modis/collect.py:83-88 | `dups` has no repeats and holds only dates that occur twice; on a sorted list it holds every such date |
| Collect.SortedRepeatIsAdjacent | modape/modis/collect.py:84-88 | in a sorted list a repeated date also occurs right before its later occurrence, which is why comparing with the previous date finds all repeats |
| Collect.MaxTs | modape/modis/collect.py:94 | the maximum timestamp of a date bounds every entry of that date and is reached by one of them |
| Collect.PopIsSuperseded | modape/modis/collect.py:91-98 | the indices put in `to_pop` are exactly the entries whose timestamp is below their date's maximum |
| Collect.KeptIndices | modape/modis/collect.py:101-104 | the indices that survive the deletions are exactly those not popped, in increasing order |
| Collect.DeleteDescendingIsRemoveAt | modape/modis/collect.py:101-104 | deleting the popped indices one at a time, highest first, leaves exactly the entries at the other indices, in their order |
| Collect.UniqueDateSurvives | modape/modis/collect.py:91-104 | an entry whose date occurs once is never removed |
| Collect.EveryDateSurvives | modape/modis/collect.py:91-104 | every input date still has an entry after removal |
| Collect.RemovalKeepsShape | modape/modis/collect.py:101-104 | removal keeps files and dates index-aligned and the dates sorted |
| Collect.KeptDistinctIffUniqueMax | modape/modis/collect.py:107 | the assertion after removal holds iff every repeated date has a unique maximum timestamp |
| Collect.BothNewestRepeat | modape/modis/collect.py:94-107 | two entries of one date that share the maximum timestamp both survive, so the assertion fails |
| Collect.DistinctNothingSuperseded | modape/modis/collect.py:75-107 | when no date repeats, nothing is superseded and the assertion holds, as when the block is skipped |
| Collect.RemovalKeepsSome | modape/modis/collect.py:91-104 | removal never empties a non-empty file list |
| Collect.RemoveDuplicates | modape/modis/collect.py:74-107 | succeeds iff every date has a unique newest entry; then it keeps exactly the non-superseded entries, aligned, sorted and without repeated dates, and keeps at least one |
| Collect.OneSuffixIffShared | modape/modis/collect.py:72 | the product assertion passes iff there is a product and all share the suffix after the three-letter prefix |
| Collect.ProductSetsOfPermutation | modape/modis/collect.py:61-72 | the suffix and satellite sets are the same for the sorted and the unsorted file list |
| Collect.ResolveCode | modape/modis/collect.py:109-122 | a given code is kept iff it is supported; without one, VIM granules give "VIM", LST granules "LTD", and other names leave the code unset |
| Collect.SelectProduct | modape/modis/collect.py:124-154 | interleave succeeds iff the code is VIM and there are two satellites, giving ("MXD", "MXD"+suffix); otherwise it succeeds iff there is one satellite, giving (prefix, products[0]) |
| Collect.OneSatelliteOneProduct | modape/modis/collect.py:150-154 | one satellite and one suffix mean all files are the same product, the one taken from `products[0]` |
| Collect.CutoffFrom | modape/modis/collect.py:136-142 | the loop stops at the first date not before 2002185, and otherwise at the last index; every date it passes is before 2002185 |
| Collect.CutoffDropsOnlyEarlier | modape/modis/collect.py:136-146 | when some date is not before 2002185, the kept list starts at the first such date and every dropped date is earlier |
| Collect.CutoffKeepsLastWhenNoneQualify | modape/modis/collect.py:136-146 | when every date is before 2002185, `start` stays at the last index and exactly one file is kept |
| Collect.CutoffKeptAreLater | modape/modis/collect.py:136-146 | on sorted dates, every kept date is from 2002185 on when the first kept one is |
| Collect.CutListingAqua | modape/modis/collect.py:136-146 | after the cutoff, either one file remains or the first kept date, and on sorted dates every kept date, is from 2002185 on |
| Collect.CutListingKeepsLate | modape/modis/collect.py:145-146 | no date from 2002185 on is dropped |
| Collect.FileCode | modape/modis/collect.py:165-173 | LTD/LTN succeed iff the LST name table has the code and satellite and the product is LST, and then give the table's name; other codes succeed iff the product is VIM, and are their own file code; no code is an AttributeError |
| Collect.OutputNameLayout | modape/modis/collect.py:175-181 | the output path is the target directory's parts, then `fn_code`, then `product.tile_version.fn_code.h5`, whose last two dot-parts are `fn_code` and `h5` |
| Collect.Finish | modape/modis/collect.py:156-181 | on success the collection carries the given files and dates, `nfiles`, the reference file, the `TEMPORAL_DICT` entry of `product[:5]` and the output name; an unknown `product[:5]` is an error |
| Collect.CheckChunk | modape/modis/collect.py:203-212 | accepts exactly when the chunk rows are non-zero and divide `nrows*ncols`, and returns the rows; zero rows are an error |
| Collect.DefaultChunkAccepted | modape/modis/collect.py:204-210 | the default chunk `(nrows*ncols)//25` is accepted when 25 divides a pixel count of at least 25 |
| Collect.DefaultChunkTooSmall | modape/modis/collect.py:204-212 | a raster of fewer than 25 pixels gets zero default chunk rows, and the check fails |
| Collect.Arrange | modape/modis/collect.py:55-107 | the unsupported-file and mixed-product errors; past line 72 it fails, with the line-107 assertion, iff some date keeps two entries with its newest timestamp; on success the listing is exactly the sorted files without their superseded entries, aligned, sorted, duplicate-free, and covering every input date |
| Collect.NewestKeepsNewest | modape/modis/collect.py:74-104 | every kept file is at least as recently processed as every input file of its date, and every input date keeps a file |
| Collect.SettledFacts | modape/modis/collect.py:109-154 | a settled code is the supplied one (then in VAM_PRODUCT_CODES) or the inferred one; without interleave every file has the chosen product and the satellite is its prefix; with interleave the code is VIM, both satellites occur and the product is MXD plus the shared suffix |
| Collect.KeptListingShape | modape/modis/collect.py:136-146 | the kept listing is aligned, sorted, non-empty and drawn from the input; without interleave it keeps every date, with interleave it starts at the Aqua start or is one file and keeps every date from there on |
| Collect.Conclude | modape/modis/collect.py:109-181 | on an arranged listing, the exceptions of lines 109-173 in source order and success iff none applies, with the kept listing, code, product and file name |
| Collect.Collect | modape/modis/collect.py:52-183 | every exception of the constructor in source order (unsupported file, mixed products, line-107 duplicates, unsupported code, the interleave and satellite assertions, missing TEMPORAL_DICT entry, missing code, missing LST name, incompatible code), and success iff none applies; on success the newest file of each date (after the Aqua cutoff when interleaving), the inferred VIM/LTD code when none is given, the temporal entry and the file name |
| Update.KeptStoredIndices | modape/modis/collect.py:282 | the stored positions kept are exactly the non-empty dates not among the new ones, in increasing order |
| Update.Combined | modape/modis/collect.py:282-283 | the merged list is the kept stored dates followed by the new dates; a date is in it iff it is new or a non-empty stored date |
| Update.CombinedDistinct | modape/modis/collect.py:282-283 | the merged list has no repeats when the stored and the new dates have none |
| Update.MergedDates | modape/modis/collect.py:330-331 | the date list written back is sorted and is the union of the non-empty stored dates and the new dates, without repeats when neither side has any |
| Update.IndexOf | modape/modis/collect.py:316 | `list.index` returns the first position holding the value |
| Update.ArgSort | modape/modis/collect.py:294 | `sort_ix` is a permutation of the positions that lists the dates in non-decreasing order |
| Update.ArgSortSorts | modape/modis/collect.py:323-330 | taking the dates in `sort_ix` order gives the same list as `dates_combined.sort()` |
| Update.PlaceReadsColumns | modape/modis/collect.py:314-322 | each new file lands in the column after the kept stored dates that holds its date, and the other columns are untouched |
| Update.AsWrittenColumn | modape/modis/collect.py:310-316 | before sorting, column j holds the stored column j (not the column of the j-th kept date) or a new file's data |
| Update.UpdateAsWritten | modape/modis/collect.py:282-331 | the update as written fails iff the file is wider than the merged list, and otherwise writes the sorted merged dates |
| Update.SortKeepsCorrespondence | modape/modis/collect.py:323-330 | permuting the columns by `sort_ix` keeps every column under its own date |
| Update.UpdateAsWrittenCorrespondsWhenLeading | modape/modis/collect.py:282-331 | the update as written puts every date's data under that date when the kept stored dates are exactly the leading stored columns |
| Update.FirstIngestCorresponds | modape/modis/collect.py:282-331 | a first update into an empty file puts every file's data under its date |
| Update.NewDatesCorrespond | modape/modis/collect.py:282-331 | an update whose dates are all new and whose file has no empty entries puts every column under its date |
| Update.ReingestShiftsColumns | modape/modis/collect.py:282-323 | re-ingesting the earlier of two stored dates overwrites the later date's column with the earlier date's old data |
| Update.UpdateCorrected | modape/modis/collect.py:282-331 | the corrected update fails in the same cases and writes the same sorted merged dates |
| Update.UpdateCorrectedCorresponds | modape/modis/collect.py:282-331 | the corrected update puts under every date the new file's data for a re-ingested or new date, and the stored column of that date otherwise |
| Update.ReingestCorrected | modape/modis/collect.py:282-331 | on the re-ingest example the corrected update keeps the later date's stored data |
| Smooth.ParseTempint | modape/modis/smooth.py:47-59 | interpolation is on iff `tempint` is given; the flag is the table label, "c" for a step without a label, "n" without interpolation |
| Smooth.SmoothStemParts | modape/modis/smooth.py:62-67 | the smoothed name's dot-parts are the raw name's without its last two, then "tx"+flag, then the raw name's second-to-last part |
| Smooth.SmoothNameOfCollected | modape/modis/smooth.py:62-69 | the smoothed file of `product.tile.version.fn_code.h5` is `product.tile.version.tx<flag>.fn_code.h5` in the target directory |
| Smooth.CheckArguments | modape/modis/smooth.py:163-169 | raises the nsmooth/nupdate ValueError iff both are non-zero and nsmooth < nupdate; the srange ValueError iff optimising with a supplied srange that is not an array |
| Smooth.NegativeOffset | modape/modis/smooth.py:223-236 | for non-negative counts that pass the check, the write offset is negative exactly without interpolation when nsmooth is 0 and nupdate is not |
| Smooth.DatesToSmooth | modape/modis/smooth.py:181 | `raw_dates_all[-nsmooth:]` is every date for nsmooth 0 or beyond the length, and otherwise the last nsmooth dates |
| Smooth.Weights | modape/modis/smooth.py:261 | a weight is 1 exactly where the value is not nodata and 0 exactly where it is |
| Smooth.WeightsSum | modape/modis/smooth.py:261-263 | a row's weights add up to its number of observations |
| Smooth.SelectedIsFifthOfWeights | modape/modis/smooth.py:263 | a pixel is selected iff its weight sum is at least 0.2 times the number of time steps; the exact test `5*count >= n` decides as the double-precision product does |
| Smooth.SelectionExtremes | modape/modis/smooth.py:261-264 | a fully observed row is smoothed; a non-empty row without observations is not |
| Smooth.SelectedPixels | modape/modis/smooth.py:263-264 | `map_index` lists exactly the selected pixels, in increasing order |
| Smooth.Grid | modape/modis/smooth.py:276-280 | a grid runs from its first to its last log10 λ in steps of 0.2 |
| Smooth.LagGrid | modape/modis/smooth.py:273-280 | correlation above 0.5 gives the 16 values -2..1, at most 0.5 the 16 values 0..3, NaN the 11 values -1..1, each in steps of 0.2 |
| Smooth.Dispatch | modape/modis/smooth.py:271-303 | V-curve kernels iff `soptimize`, asymmetric kernels iff `p` is given; fixed λ is `10**svalue`, or `10**sgrid[ix]` without svalue; a V-curve search uses the lag grid (corrected: a supplied srange); as written a supplied srange is an error |
| Smooth.SgridOnlyMattersWhenRead | modape/modis/smooth.py:292-298 | outside the fixed-λ-from-grid mode the stored grid value has no effect on the call |
| Smooth.SmoothPixel | modape/modis/smooth.py:271-303 | fails only as written, when optimising with a supplied srange; a fixed-λ run leaves the pixel's grid value as it was read |
| Smooth.SmoothChunk | modape/modis/smooth.py:258-343 | selected rows are smoothed by the dispatched kernel and the others are kept; the grid values are those written back; as written, a chunk fails iff it optimises with a supplied srange and selects a pixel |
| Smooth.CorrectedGridHoldsLogLambda | modape/modis/smooth.py:330-338 | corrected, a pixel smoothed in a run that reads the grid is left with the log10 of the λ it was smoothed with |
| Smooth.StoredAfter | modape/modis/smooth.py:330-338 | a grid that is not read keeps its values; as written, every positive entry of a read grid is passed through log10; corrected, only the entry of a pixel the V-curve optimised is |
| Smooth.CorrectedKeepsUnoptimised | modape/modis/smooth.py:330-338 | corrected, a grid entry that was not optimised is written back as it was read |
| Smooth.GridRunRelogs | modape/modis/smooth.py:330-338 | as written, a run with λ from the grid stores log10 g for a stored g > 0, and the next such run smooths with λ = g rather than 10^g |
| Smooth.OptimiseRelogsUnselected | modape/modis/smooth.py:330-332 | as written, a V-curve run also re-logs the positive grid value of a pixel it did not select; corrected, that value is kept |
| Smooth.SrangeReachesOptimiser | modape/modis/smooth.py:271-290 | as written, a supplied srange ends in an unbound `sr`; corrected, it is exactly the grid the V-curve searches |
| Smooth.LabelNamesMode | modape/modis/smooth.py:349-360 | the `lastrun` text tells which of the three modes chose λ |
| Smooth.LabelMatchesDispatch | modape/modis/smooth.py:349-360 | the label says "V-curve" iff a V-curve kernel was dispatched, and ends in the P-value suffix when an asymmetric kernel was |
| Smooth.UpdateAttrs | modape/modis/smooth.py:358-375 | `pvalue` is present iff p is given, then holding p; `lastrun` and `processingtimestamp` are set; every other attribute is kept |

## Left out

- The Whittaker kernels `ws2d`, `ws2dp`, `ws2doptv`, `ws2doptvp` and `lag1corr`. Their source (`_whittaker.pyx`) is not part of this model; they are uninterpreted functions.
- h5py and GDAL I/O: creating, resizing, reading and writing datasets and attributes, `FileHandler`, `ReadAsArray`, `read_chunked` and `write_chunk`. Each model function works on the values read.
- `update` reads raster bands. A band GDAL cannot read (the `AttributeError` branch of lines 320-322) is a `bands` entry equal to the nodata value.
- The regular expressions of `REGEX_PATTERNS` and the tables `VAM_PRODUCT_CODES`, `TEMPORAL_DICT`, `LST_NAME_LUD` and `TEMPINT_LABELS` are not part of this model. They are parameters.
- `fromjulian`: comparing dates through it is modelled as comparing the seven-digit julian strings.
- `re.findall(...)[0]` raising `IndexError` on a name without a match is not modelled. The patterns are total functions.
- `Path` normalisation of the target directory and of `Path(rawfile).name` is not modelled. A path is a string, and its name is the part after the last `/`.
- `DateHelper`, `getDIX`, `getDV`, the `smt_offset` search, the dataset resize in `smooth`, and `_apply_tinterpolate` (lines 393-402, a `ws2d` call on a daily vector) are not part of this model. Their logic lies in code outside it or in the kernels.
- `np.rint`, logging, warnings, timestamps (the timestamp is a parameter), `gc.collect`, `setup.py` and the version string are left out. They have no decision logic.
- `smooth` calls `lag1corr` only when it optimises without `srange`. The model evaluates it for every pixel; it is pure, and the value is ignored elsewhere.
- The block loops of `update` work on ten columns and on several pixel rows at a time. The model follows one pixel row, because every row gets the same column shuffle.
- Update.UpdateAsWritten: the numpy shape error of a file wider than the merged list is one `WidthMismatch` error. Which statement raises it depends on the width modulo 10, and is not modelled.
- Update.ArgSort: `np.argsort` uses quicksort, which is not stable. The model breaks ties by index, which only matters for repeated dates; the merged list has none when the stored dates have none.
- Smooth.LagGrid: the grids are exact multiples of 0.2. `np.arange(...).round(2)` gives the nearest doubles, not these exact values.
- Smooth.Dispatch: a `lag1corr` result is a real or NaN. Infinite correlations do not occur.
- Smooth.LogLaws: `10**x` and `log10` are assumed to be exact inverses with positive powers. Floating-point rounding is not modelled.
- Smooth.LabelNamesMode: `str(float)` is a parameter, assumed not to start with `f` for `svalue`.
- Smooth.NegativeOffset: what `write_chunk` does with a negative `xoff` is not part of this model. The lemma only shows when the offset is negative.

## Findings

| source | as written | input that shows it | evidently intended | confidence | as-written member | corrected member |
|---|---|---|---|---|---|---|
| modape/modis/collect.py:282-323 | Line 282 drops a re-ingested stored date from `dates_combined`. Lines 310-311 still copy the stored columns in their stored positions, so every stored column after a dropped one lands one position early. | stored dates [a, b] with data [x, y], a < b; update with the new file of date a carrying z | the file holds [z, y] under [a, b] | high (not executed) | Update.UpdateAsWritten, shown by Update.ReingestShiftsColumns (result [z, x]) | Update.UpdateCorrected, proved by Update.UpdateCorrectedCorresponds and Update.ReingestCorrected |
| modape/modis/smooth.py:294-338 | The `sgrid` chunk is passed through log10 wherever it is positive. This includes a fixed-λ run that took λ from the grid and only read it, and the pixels a V-curve run did not select. | `smooth()` with neither `svalue` nor `soptimize` on a pixel whose stored log10 λ is g = 2: it is smoothed with λ = 100 and left with log10 2; the next such run uses λ = 2 | only a λ the V-curve chose is converted; other entries keep the log10 λ they were read with | high (not executed) | Smooth.StoredAfter (variant `AsWritten`), shown by Smooth.GridRunRelogs and Smooth.OptimiseRelogsUnselected | Smooth.StoredAfter (variant `Corrected`), proved by Smooth.CorrectedGridHoldsLogLambda, Smooth.CorrectedKeepsUnoptimised and Smooth.OptimiseRelogsUnselected |
| modape/modis/smooth.py:273-290 | `sr` is assigned only when `srange` is None. A supplied `srange` (which must be an array, line 167) is never used, and the first selected pixel raises `UnboundLocalError` at `array('d', sr)`. | `smooth(soptimize=True, srange=np.arange(-1, 1, 0.2))` on a chunk with one pixel of full data | the V-curve searches the supplied `srange` | high (not executed) | Smooth.Dispatch (variant `AsWritten`), shown by Smooth.SrangeReachesOptimiser and Smooth.SmoothChunk | Smooth.Dispatch (variant `Corrected`), proved by Smooth.SrangeReachesOptimiser |
