# DEM-of-Difference bookkeeping, in Dafny

This project models the bookkeeping layer of a DEM-of-Difference (DoD) pipeline. Two
digital elevation models (a *source* and a *reference*) are brought onto a common grid
(`match_dems`), optionally shifted (`shift_dem`), and differenced pixel by pixel
(`DoD_Stats`). A statistics report is appended to a text log and the difference raster is
written; `match_diff` chains these steps. The helpers in `utilities/logger.py` write the log
(`log`) and list input folders (`files_from_folder`).

GDAL, pygeotools and demcoreg do the raster work, and they are not modelled. What this code
decides itself is modelled:

- which files are read and written, and under which names;
- when the original inputs are passed through without warping;
- when a shift is applied;
- which pixels and values feed each statistic;
- the order of the log lines and the moment the difference file is written.

The modules:

- `Wrappers`: `Option` and `Result`, plus an `Error` type for the ways a call can end.
  These are: an `IndexError`, a dataset that does not open, incompatible array shapes, a
  reduction over an empty array, a `NameError`, and an unbound local.
- `Paths`: `os.path` over `/`. It models `basename`, `dirname`, `join`, `splitext` and
  `str.endswith`, with Python's rule for dot-files in `splitext`.
- `Rasters`: a raster is a georeferencing record plus a grid of optional samples
  (`None` = nodata). `Externals` holds the foreign functions as data:
  - rounded resolution and rounded extent, as integers in fixed point, read from the geotransform and
    the size in pixels only;
  - native resolution;
  - the joint warp;
  - the xy and z shifts.

  `MemDataset` is the in-memory copy that the shifts update in place.
- `Storage`: the disk is two maps, text files and rasters. `FileSystem` holds it and
  writes GeoTIFFs.
- `Logger`: `log` and `files_from_folder`. The directory listing is a parameter.
- `Naming`: the output-naming policy shared by both difflib files.
- `Differencing`: the masked difference and the compressed values. It also holds the
  twelve statistics (built from caller-supplied numeric functions) and the 17 report lines.
- `Alignment`: what `match_dems` and `shift_dem` leave on disk and return. The two difflib
  files have textually identical copies of both.
- `PygeoDiff`: `pygeo_lib/difflib.py`.
- `UtilDiff`: `utilities/difflib.py`.
- `StatsLib`: `utilities/statslib.py`.

Each step-by-step method (`modifies` a `FileSystem`) is proved equal to a pure outcome
function: the new disk and the result are exactly what the function gives for the old
disk. The lemmas about those functions state what the source promises.

The model follows the code wherever the code and its documentation differ:

- **Sign and template on the fast path.** `DoD_Stats` calls `match_dems(ref_dem_fn, src_dem_fn, ...)`
  into the signature `(src_dem_fn, ref_dem_fn, ...)`. For inputs already on a common grid,
  the difference it writes is therefore *reference minus source*, on the source's
  georeferencing, even though the log calls the file "src-ref". The same holds for
  `match_diff` (`PygeoDiff.DoDStatsFastPath`, `PygeoDiff.MatchDiffAligned`).
- **DoD_Stats off a common grid.** `DoD_Stats` calls `match_dems` without `writeref`
  (`pygeo_lib/difflib.py:33`). Of the two `_matched.tif` names that come back, only the
  one made from its reference is written. The one made from its source is
  `ref_out_fn`, the first clip it opens (`pygeo_lib/difflib.py:35, 38`). When the two
  stems differ, that file does not exist unless a stale file of that name is already on
  disk, and the call fails after the warp with nothing logged (`PygeoDiff.DoDStatsOffGrid`).
  When the stems agree, both names are the same file, so the warped reference is
  differenced with itself and the difference is zero wherever it is valid
  (`PygeoDiff.DoDStatsOffGridSameStem`).
- **match_diff off a common grid.** `match_diff` writes both `_matched.tif` files on the
  warped source's georeferencing. The rounded resolution and extent read only a dataset's
  geometry, so its inner `DoD_Stats` finds the two files on a common grid and passes them
  through without warping again. The difference file then holds the warped reference
  minus the warped source (`PygeoDiff.MatchDiffWarped`). This assumes the warp returns
  two bands of one shape and the stems differ.
- **No valid sample.** A difference with no valid sample makes `np.nanmin` raise. The call
  then ends before any log line is written (`EmptyReduction`).
- **`match=False`.** With `match` unset, `ref_out_fn` is never bound, so `DoD_Stats` fails
  (`UnboundLocal`).
- **`utilities/statslib.py`.** Its `DoD_Stats` refers to `match_dems` without defining or
  importing it. It therefore always fails: a `NameError` with `match` set, an
  `UnboundLocal` otherwise. It never reaches its masked difference or its log calls
  (`utilities/statslib.py:26-73`, which match `pygeo_lib/difflib.py:35-82` apart from
  `logger.log`; modelled once in `Differencing`). As a result, the `match_diff` of
  `utilities/difflib.py` never returns its names. It fails after `match_dems` has written
  the matched files (`UtilDiff.MatchDiffAlwaysFails`).

## Model

| member | source | states |
|---|---|---|
| Paths.Basename | pygeo_lib/difflib.py:27 | the basename holds no separator, is a suffix of the path, and is preceded by a separator when shorter |
| Paths.Splitext | pygeo_lib/difflib.py:27 | root + extension rebuild the path; the extension is empty or one dot followed by no dot and no separator |
| Paths.Join | pygeo_lib/difflib.py:103 | the joined path ends with the joined name |
| Paths.StemBasenameCommute | pygeo_lib/difflib.py:27 | `basename(splitext(p)[0])` equals `splitext(basename(p))[0]`, so both naming styles in the file use the same stem |
| Paths.BasenameJoin | pygeo_lib/difflib.py:165 | the basename of `join(dir, name)` is `name` when `name` has no separator |
| Paths.DirnameJoin | pygeo_lib/difflib.py:165 | the dirname of `join(dir, name)` is `dir` when `dir` has no trailing separator |
| Paths.Dirname | pygeo_lib/difflib.py:204 | definition of `os.path.dirname`: the head up to the last separator, with trailing separators stripped unless it is all separators; DirnameJoin and DirnameOfSameHead state its properties |
| Naming.Normalize | pygeo_lib/difflib.py:22-25 | a plain string is kept, a list is replaced by its first element, an empty list raises IndexError |
| Naming.DefaultPathsUseSourceStem | pygeo_lib/difflib.py:26-30 | the default difference and log paths are the output directory glued, with no separator, to the source stem plus `_diff.tif` / `_stats.txt` |
| Naming.OutputPathPlacement | pygeo_lib/difflib.py:103 | a `_shifted`/`_matched` name has basename stem + suffix, lies in the output directory, and ends with the suffix |
| Naming.MatchedPathsCollide | pygeo_lib/difflib.py:165-168 | the two `_matched.tif` names coincide exactly when the input stems coincide |
| Naming.DirnameStemSuffix | pygeo_lib/difflib.py:204-206 | `splitext(src)[0] + '_diff.tif'` lies in `dirname(src)` |
| Naming.MatchDiffTargetCases | pygeo_lib/difflib.py:202-210 | the three cases of match_diff's output directory and difference path; each path ends with `.tif`; the same rule is at utilities/difflib.py:136-144 |
| Naming.DefaultDiffPath | pygeo_lib/difflib.py:26-27 | definition of DoD_Stats' default difference path; DefaultPathsUseSourceStem states it is the output directory glued, with no separator, to the source's basename stem plus `_diff.tif`, ending with `.tif` |
| Naming.DefaultStatsPath | pygeo_lib/difflib.py:29-30 | definition of DoD_Stats' default log path; DefaultPathsUseSourceStem states it is the output directory glued to the source's basename stem plus `_stats.txt` |
| Naming.OutputPath | pygeo_lib/difflib.py:103 | definition of `join(outdir, splitext(split(fn)[-1])[0] + suffix)`, the rule also used at lines 165 and 168; OutputPathPlacement states its basename, directory and suffix |
| Naming.MatchedPath | pygeo_lib/difflib.py:165-168 | definition of a `_matched.tif` name; MatchedPathsCollide states when two coincide and Alignment.MatchedPathIsNew that it differs from its input |
| Naming.ShiftedPath | pygeo_lib/difflib.py:103 | definition of the `_shifted.tif` name; OutputPathPlacement states where it lies and Alignment.ShiftDemWrites that it is the one file shift_dem writes |
| Naming.MatchDiffTargets | pygeo_lib/difflib.py:202-210 | definition of match_diff's output directory and difference path; MatchDiffTargetCases states the three cases; the same rule is at utilities/difflib.py:136-144 |
| Naming.AlignStatsPath | pygeo_lib/difflib.py:224-225 | definition of match_diff's statistics log; AlignStatsPathPlacement states its placement |
| Naming.AlignStatsPathPlacement | pygeo_lib/difflib.py:224-225 | a given statistics path is used as is; the default has basename `Matched_DoD_Stats.txt` and lies in the output directory when that has no trailing separator |
| Rasters.MemDataset.CreateCopy | pygeo_lib/difflib.py:93 | the in-memory copy holds the source raster |
| Rasters.MemDataset.ApplyXYShift | pygeo_lib/difflib.py:97 | the copy is replaced by its xy-shifted raster, in place |
| Rasters.MemDataset.ApplyZShift | pygeo_lib/difflib.py:99 | the copy is replaced by its z-shifted raster, in place |
| Storage.Open | pygeo_lib/difflib.py:123-124 | `gdal.Open` (here and at lines 35-36) yields a raster iff the path holds one on disk, and then exactly that raster; a missing file yields None |
| Storage.WrittenGTiff | pygeo_lib/difflib.py:82 | writing adds or replaces exactly one raster, holding the array on the template's georeferencing; texts unchanged |
| Storage.FileSystem.WriteGTiff | pygeo_lib/difflib.py:82 | the disk becomes WrittenGTiff of the old disk |
| Logger.Log | utilities/logger.py:5-17 | the texts become LogTexts of the old texts, rasters are untouched, and the console gets `msg` exactly when `print_msg` is set |
| Logger.LogTexts | utilities/logger.py:5-17 | definition of the text files after one `log`: only `log_file` changes; HeaderOverwrites, HeaderIdempotent and AppendExtends state what it then holds |
| Logger.HeaderOverwrites | utilities/logger.py:7-10 | with `header` the file holds exactly the dash line, newline, msg, newline; other files unchanged |
| Logger.HeaderIdempotent | utilities/logger.py:7-10 | two header writes of the same message leave what one leaves |
| Logger.AppendExtends | utilities/logger.py:13-15 | without `header` the file is its old content (empty when missing) followed by msg and a newline |
| Logger.UnlinesAppend | utilities/logger.py:13-15 | successive appends concatenate: the lines of `a + b` are the lines of `a` then those of `b` |
| Logger.LoggedSnoc | utilities/logger.py:13-15 | one more append adds one more line to a run of appends |
| Logger.SplitUnlines | utilities/logger.py:13-15 | a run of single-line appends reads back as those lines, in order |
| Logger.Filter | utilities/logger.py:27 | a comprehension filter keeps exactly the entries that pass |
| Logger.FilesFromFolder | utilities/logger.py:19-31 | definition: the four branches of files_from_folder over the listing; FilesFromFolderWanted and FilesFromFolderSelects state what it selects |
| Logger.JoinEach | utilities/logger.py:25 | each listed entry becomes `join(folder, entry)`, in listing order |
| Logger.FilesFromFolderWanted | utilities/logger.py:24-31 | all four branches select the entries that end with `ext` (when given) and contain `tag` (when given) |
| Logger.JoinFilterSubsequence | utilities/logger.py:24-31 | a filtered listing, joined, is a subsequence of the unfiltered one |
| Logger.FilesFromFolderSelects | utilities/logger.py:24-31 | the result is a subsequence of the unfiltered result, and a path is in it iff it joins a listed entry that passes both filters |
| Differencing.Subtract | pygeo_lib/difflib.py:49 | shapes must agree; a difference sample is valid iff both inputs are, and is then src - ref |
| Differencing.Compressed | pygeo_lib/difflib.py:50 | `compressed()` has exactly as many values as there are valid samples, and a value occurs in it iff some valid sample holds it |
| Differencing.CompressedAppend | pygeo_lib/difflib.py:50 | compressing keeps the order: the values of a concatenation are those of the first part, then those of the second |
| Differencing.CompressedOfValid | pygeo_lib/difflib.py:50 | a band with no masked sample compresses to its values, position by position |
| Differencing.Zeros | pygeo_lib/difflib.py:50-52 | exactly the values equal to 0; SignPartition states that with the positives and negatives it partitions the compressed values |
| Differencing.Positives | pygeo_lib/difflib.py:51 | exactly the values > 0 |
| Differencing.Negatives | pygeo_lib/difflib.py:52 | exactly the values < 0 |
| Differencing.Magnitudes | pygeo_lib/difflib.py:53-61 | the absolute values of all compressed values, position by position |
| Differencing.Summarize | pygeo_lib/difflib.py:50-61 | definition: the mean is over all compressed values, the positive and negative means over the values > 0 and < 0, and the other nine metrics over their magnitudes; what feeds each is characterised by Compressed, Positives, Negatives, Magnitudes and SignPartition |
| Differencing.HeaderLines | pygeo_lib/difflib.py:63-67 | definition of the five header lines (source and reference basenames, difference basename, output directory, both resolutions); ReportLayout states their place in the report |
| Differencing.MetricLines | pygeo_lib/difflib.py:68-79 | definition of the twelve metric lines; ReportLayout states that each carries its label and its formatted metric, in the fixed order |
| Differencing.ReportLines | pygeo_lib/difflib.py:63-79 | definition of the 17 log lines, header then metrics; ReportLayout states the layout |
| Differencing.ReportLayout | pygeo_lib/difflib.py:63-79 | 17 lines: the five header lines, then each of the twelve metrics under its label in the fixed order |
| Differencing.ValidCountBound | pygeo_lib/difflib.py:49-50 | the difference has no more valid samples than either input |
| Differencing.SignPartition | pygeo_lib/difflib.py:50-52 | positives, negatives and zeros partition the compressed values (counts and multisets); 0 is in neither signed subset |
| Differencing.SelfDifference | pygeo_lib/difflib.py:49-52 | a DEM minus itself has all valid samples equal to 0 and no positive or negative value |
| Alignment.MatchDemsPassThrough | pygeo_lib/difflib.py:131-143 | with both inputs readable, the inputs' own paths come back exactly when rounded resolutions and extents agree, and then no file changes; likewise utilities/difflib.py:65-77 |
| Alignment.MatchDemsWarps | pygeo_lib/difflib.py:153-183 | otherwise the `_matched.tif` pair comes back; the source file holds the warped source on the warped reference's georeferencing; the reference file is written only with `writeref`; nothing else changes; likewise utilities/difflib.py:86-117 |
| Alignment.MatchDemsFailure | pygeo_lib/difflib.py:123-131 | match_dems fails iff an input does not open, naming the source first, and then leaves the disk as it was |
| Alignment.OnCommonGrid | pygeo_lib/difflib.py:125-138 | definition of the already-aligned test: rounded resolutions and rounded extents agree, both taken in the source's SRS and both read from the geometry only |
| Alignment.CommonGridOfSameGeometry | pygeo_lib/difflib.py:131-138 | two rasters with one geotransform and one size in pixels pass the already-aligned test, whatever their samples |
| Alignment.MatchDemsOutcome | pygeo_lib/difflib.py:108-183 | definition of what match_dems leaves on disk and returns; MatchDemsPassThrough, MatchDemsWarps, MatchDemsFailure and MatchDemsKeepsFiles state its properties; likewise utilities/difflib.py:42-117 |
| Alignment.Shifted | pygeo_lib/difflib.py:94-99 | definition of shift_dem's gate: both shifts, xy then z, when dx, dy and dz are all given, no shift otherwise |
| Alignment.ShiftDemOutcome | pygeo_lib/difflib.py:86-106 | definition of what shift_dem leaves on disk and returns; ShiftDemWrites and ShiftDemFailure state its properties; likewise utilities/difflib.py:12-40 |
| Alignment.MatchDemsKeepsFiles | pygeo_lib/difflib.py:108-183 | match_dems writes no text file and removes no raster |
| Alignment.MatchedPathIsNew | pygeo_lib/difflib.py:165-168 | a `_matched.tif` name differs from the name it was made from |
| Alignment.ShiftDemWrites | pygeo_lib/difflib.py:88-106 | one `<stem>_shifted.tif` in the output directory is written and returned; it holds both shifts when dx, dy and dz are all given, an unmodified copy otherwise; likewise utilities/difflib.py:22-40 |
| Alignment.ShiftDemFailure | pygeo_lib/difflib.py:88-91 | a shift shorter than three raises IndexError before anything is opened; a missing source fails next; neither writes |
| PygeoDiff.ShiftDem | pygeo_lib/difflib.py:86-106 | the disk and result are ShiftDemOutcome's |
| PygeoDiff.MatchDems | pygeo_lib/difflib.py:108-183 | the disk and result are MatchDemsOutcome's |
| PygeoDiff.Log | pygeo_lib/difflib.py:63-79 | one `utilities.log(msg, log_file)` call: a log holding its old content and a run of lines gains `msg` as one more line; no other file changes |
| PygeoDiff.AppendMetrics | pygeo_lib/difflib.py:68-79 | six successive log calls: the log gains the six metric lines in order; no other file changes |
| PygeoDiff.AppendReport | pygeo_lib/difflib.py:63-79 | the 17 appends leave the log's old content followed by the 17 lines; rasters untouched |
| PygeoDiff.Report | pygeo_lib/difflib.py:35-82 | the disk and result are ReportOutcome's |
| PygeoDiff.DoDStats | pygeo_lib/difflib.py:20-82 | the disk and result are DoDStatsOutcome's |
| PygeoDiff.MatchDiff | pygeo_lib/difflib.py:185-235 | the disk and result are MatchDiffOutcome's |
| PygeoDiff.ReportOutcome | pygeo_lib/difflib.py:35-82 | definition of the body of DoD_Stats once the clip names are bound; ReportOutcomeEffect states its properties |
| PygeoDiff.DoDStatsOutcome | pygeo_lib/difflib.py:20-82 | definition of DoD_Stats' effect and result; the DoDStats* lemmas state its properties |
| PygeoDiff.MatchDiffOutcome | pygeo_lib/difflib.py:185-235 | definition of match_diff's effect and result; the MatchDiff* lemmas state its properties |
| PygeoDiff.ReportOutcomeEffect | pygeo_lib/difflib.py:35-82 | success iff both clips open, shapes agree and some sample is valid; failure changes nothing; success appends to the log only and writes src - ref on the reference clip's georeferencing |
| PygeoDiff.DoDStatsEarlyFailures | pygeo_lib/difflib.py:22-35 | an empty path list raises IndexError and `match=False` fails on the unbound `ref_out_fn`, both with the disk unchanged |
| PygeoDiff.DoDStatsFailureKeepsTexts | pygeo_lib/difflib.py:32-82 | a failed DoD_Stats has written no log line; no raster is ever removed |
| PygeoDiff.DoDStatsSuccess | pygeo_lib/difflib.py:26-82 | on success `match` was set, the (default or given) log grew and no other text changed, and the difference file exists |
| PygeoDiff.DoDStatsFastPath | pygeo_lib/difflib.py:33-82 | aligned inputs: the log gains exactly the 17 report lines (with the resolutions in swapped roles) and the one raster written is reference minus source on the source's georeferencing |
| PygeoDiff.DoDStatsOffGrid | pygeo_lib/difflib.py:33-38 | inputs off a common grid with different stems, and no stale file: match_dems writes only the reference's `_matched.tif`, so DoD_Stats fails on opening the source's, with the disk as match_dems left it and nothing logged |
| PygeoDiff.DoDStatsOffGridSameStem | pygeo_lib/difflib.py:33-82 | inputs off a common grid with equal stems: both names are the one file holding the warped reference; success iff it has a valid sample, and the difference written is that file minus itself, zero wherever valid |
| PygeoDiff.MatchDiffNames | pygeo_lib/difflib.py:202-235 | success returns the difference and statistics paths chosen up front; an unreadable reference, then source, fails with the disk unchanged |
| PygeoDiff.MatchDiffKeepsRasters | pygeo_lib/difflib.py:212-228 | no raster that match_dems left on disk is removed by the rest of match_diff, whether DoD_Stats succeeds or fails |
| PygeoDiff.MatchDiffKeepsMatched | pygeo_lib/difflib.py:212 | inputs off a common grid leave both `_matched.tif` files in the output directory, whatever follows |
| PygeoDiff.MatchDiffAligned | pygeo_lib/difflib.py:202-235 | aligned inputs: match_diff returns its names and the difference file holds reference minus source on the source's georeferencing |
| PygeoDiff.MatchDiffAfterMatch | pygeo_lib/difflib.py:212-235 | once match_dems has returned, match_diff ends as its inner DoD_Stats does, returning the names chosen up front on success |
| PygeoDiff.MatchDiffWarped | pygeo_lib/difflib.py:202-235 | inputs off a common grid with different stems, a warp to bands of one shape and a valid sample: the inner DoD_Stats passes the matched files through, and the difference file holds warped reference minus warped source on the warped source's georeferencing |
| StatsLib.DoDStats | utilities/statslib.py:11-26 | always fails: IndexError iff a path list is empty; otherwise NameError on `match_dems` iff `match` is set, else UnboundLocal on `ref_out_fn` |
| UtilDiff.ShiftDem | utilities/difflib.py:12-40 | the disk and result are ShiftDemOutcome's |
| UtilDiff.MatchDems | utilities/difflib.py:42-117 | the disk and result are MatchDemsOutcome's |
| UtilDiff.MatchDiff | utilities/difflib.py:119-169 | the disk and result are UtilDiff.MatchDiffOutcome's |
| UtilDiff.MatchDiffOutcome | utilities/difflib.py:119-169 | definition of this match_diff's effect and result; MatchDiffAlwaysFails states its properties |
| UtilDiff.MatchDiffAlwaysFails | utilities/difflib.py:146-162 | match_diff always fails, with CannotOpen for an unreadable input (reference first) and otherwise the NameError of statslib's DoD_Stats; the disk is what match_dems left, with no text changed |

## Left out

- GDAL and rasterio I/O (`gdal.Open`, `iolib.ds_getma`, `writeGTiff`, `CreateCopy`) are reads and writes on a map from path to raster. A missing file is the only failure modelled; driver errors, file permissions and directories that do not exist are not.
- `geolib.get_res`, `ds_geom_extent`, `get_ds_srs`, `warplib.memwarp_multi` and `coreglib.apply_xy_shift`/`apply_z_shift` are caller-supplied functions (`Externals`). The 5- and 3-decimal rounding happens inside them, as integers in fixed point. Their internals, cubic resampling and the float rounding are not modelled.
- The numpy reductions (`nanmean`, `nanmedian`, `nanstd`, `nanmin`, `nanmax`, `nanpercentile`) and `%0.4f` are caller-supplied functions (`Numerics`). Only which values feed each metric is modelled, not the float arithmetic. NaN samples count as valid values, because masking is the only nodata mechanism modelled. The `nanmean` of an empty positive or negative subset is whatever the supplied function returns.
- `utilities.log`, which `pygeo_lib/difflib.py:16, 63-79` calls, comes from a `utilities` package that is not part of this model. It is taken to be the `log` of `utilities/logger.py` in append mode with its default `print_msg`, which is how `PygeoDiff.AppendReport` and `PygeoDiff.Log` model each call.
- In `Externals`, `roundedRes` and `roundedExtent` are functions of a dataset's geotransform and size in pixels (and the target SRS), never of its samples. The resolution takes the size too, because `geolib.get_res` with a `t_srs` measures the reprojected diagonal against the pixel counts. `warp` is any function: that `memwarp_multi` returns two bands of one shape is a hypothesis of `PygeoDiff.MatchDiffWarped`, not a property of the model.
- Differencing.Subtract: numpy broadcasting of different but compatible shapes is not modelled. Any shape mismatch is an error.
- The 4-decimal resolution check is print-only, so it is not modelled, along with all other `print` output.
- `log` with `print_msg` goes to a console sequence; nothing else is printed.
- Paths: only the POSIX separator `/` is modelled. Windows paths, the alternative separator and `normpath` are not.
- Logger.FilesFromFolder: `os.listdir`'s order and contents are a parameter. The result is stated relative to that listing.
- The `gdal.Open` calls at `pygeo_lib/difflib.py:214-218` and `utilities/difflib.py:148-152` only feed prints. They cannot fail once `match_dems` has succeeded, so they are not modelled.
- The unused `orig_stats` parameter and the unused `res_out` value in `match_dems` are not modelled.
- `plot_DoD`, every `main`, and the driver scripts are not modelled (plotting, hard-coded paths).
- Text logs and rasters are kept in separate maps. A log and a raster written to the same path do not overwrite each other in the model. Directories are not modelled either. So when `match_diff`'s `outdir` ends in `.tif`, the one string is both the difference file (`pygeo_lib/difflib.py:208`) and the directory of the matched files and the statistics log (`pygeo_lib/difflib.py:212, 225`). A real run then cannot succeed, but the model lets it (`Naming.MatchDiffTargetCases`).
