/**
 * pygeo_lib/difflib.py: DoD_Stats, shift_dem, match_dems and match_diff, with the
 * argument orders of their calls kept as written.
 */
module PygeoDiff {
  import opened Wrappers
  import opened Paths
  import opened Rasters
  import opened Storage
  import opened Naming
  import opened Differencing
  import opened Alignment
  import Logger

  /**
   * The body of DoD_Stats once `ref_out_fn` and `src_out_fn` are bound: open both, take
   * the masked difference src - ref, append the 17 log lines and then write the difference
   * with the reference as template. `np.nanmin` raises on an empty array, so a difference
   * without a valid sample ends the call before anything is logged.
   */
  function ReportOutcome(d: Disk, ext: Externals, num: Numerics, srcDemFn: string, refDemFn: string,
                         outdir: string, logFile: string, outDiffFn: string,
                         refOutFn: string, srcOutFn: string): Outcome<()> {
    if refOutFn !in d.rasters then Outcome(d, Err(CannotOpen(refOutFn)))
    else if srcOutFn !in d.rasters then Outcome(d, Err(CannotOpen(srcOutFn)))
    else
      var refClip, srcClip := d.rasters[refOutFn], d.rasters[srcOutFn];
      var diff := Subtract(srcClip.band, refClip.band);
      if diff.Err? then Outcome(d, Err(diff.error))
      else
        var v := Compressed(diff.value.cells);
        if v == [] then Outcome(d, Err(EmptyReduction))
        else
          var lines := ReportLines(num, srcDemFn, refDemFn, outDiffFn, outdir,
                                   ext.nativeRes(srcClip), ext.nativeRes(refClip), Summarize(num, v));
          var logged := d.(texts := d.texts[logFile := Logger.Prior(d.texts, logFile) + Logger.Unlines(lines)]);
          Outcome(WrittenGTiff(logged, diff.value, outDiffFn, refClip), Ok(()))
  }

  /**
   * DoD_Stats(src_dem_fn, ref_dem_fn, outdir, res, extent, match, log_file, out_diff_fn).
   * It calls `match_dems(ref_dem_fn, src_dem_fn, ...)`, so match_dems' source is this
   * function's reference; with `match` unset `ref_out_fn` is never bound.
   */
  function DoDStatsOutcome(d: Disk, ext: Externals, num: Numerics, srcDemFn: PathArg, refDemFn: PathArg,
                           outdir: string, res: string, extent: string, doMatch: bool,
                           logFile: Option<string>, outDiffFn: Option<string>): Outcome<()> {
    var ref := Normalize(refDemFn);
    var src := Normalize(srcDemFn);
    if ref.Err? then Outcome(d, Err(ref.error))
    else if src.Err? then Outcome(d, Err(src.error))
    else
      var outDiff := outDiffFn.GetOr(DefaultDiffPath(outdir, src.value));
      var log := logFile.GetOr(DefaultStatsPath(outdir, src.value));
      if !doMatch then Outcome(d, Err(UnboundLocal("ref_out_fn")))
      else
        var m := MatchDemsOutcome(d, ext, ref.value, src.value, outdir, res, extent, false);
        if m.result.Err? then Outcome(m.disk, Err(m.result.error))
        else ReportOutcome(m.disk, ext, num, src.value, ref.value, outdir, log, outDiff,
                           m.result.value.0, m.result.value.1)
  }

  /**
   * match_diff(src_dem_fn, ref_dem_fn, res, extent, outdir, align_stats_fn): choose the
   * output directory and difference path, match with `match_dems(ref_dem_fn, src_dem_fn, ...,
   * writeref=True)`, then call `DoD_Stats(ref_out_fn, src_out_fn, ...)`.
   */
  function MatchDiffOutcome(d: Disk, ext: Externals, num: Numerics, srcDemFn: string, refDemFn: string,
                            res: string, extent: string, outdir: Option<string>,
                            alignStatsFn: Option<string>): Outcome<(string, string)> {
    var (dir, diffFn) := MatchDiffTargets(srcDemFn, outdir);
    var m := MatchDemsOutcome(d, ext, refDemFn, srcDemFn, dir, res, extent, true);
    if m.result.Err? then Outcome(m.disk, Err(m.result.error))
    else
      var statsFn := AlignStatsPath(dir, alignStatsFn);
      var s := DoDStatsOutcome(m.disk, ext, num, Single(m.result.value.0), Single(m.result.value.1),
                               dir, res, extent, true, Some(statsFn), Some(diffFn));
      if s.result.Err? then Outcome(s.disk, Err(s.result.error)) else Outcome(s.disk, Ok((diffFn, statsFn)))
  }

  /**
   * The reporting half of DoD_Stats either changes nothing (a clip that does not open,
   * shapes that do not agree, no valid sample) or appends to the log file, touches no other
   * text file and writes src - ref as the difference raster, on the reference clip's
   * georeferencing.
   */
  lemma ReportOutcomeEffect(d: Disk, ext: Externals, num: Numerics, srcDemFn: string, refDemFn: string,
                            outdir: string, logFile: string, outDiffFn: string, refOutFn: string, srcOutFn: string)
    ensures var o := ReportOutcome(d, ext, num, srcDemFn, refDemFn, outdir, logFile, outDiffFn, refOutFn, srcOutFn);
      (o.result.Err? ==> o.disk == d) &&
      (o.result.Ok? ==>
         o.disk.texts.Keys == d.texts.Keys + {logFile} &&
         (forall p :: p in d.texts && p != logFile ==> o.disk.texts[p] == d.texts[p]) &&
         Logger.Prior(d.texts, logFile) < o.disk.texts[logFile] &&
         o.disk.rasters.Keys == d.rasters.Keys + {outDiffFn})
    ensures var o := ReportOutcome(d, ext, num, srcDemFn, refDemFn, outdir, logFile, outDiffFn, refOutFn, srcOutFn);
      o.result.Ok? <==>
        refOutFn in d.rasters && srcOutFn in d.rasters &&
        SameShape(d.rasters[srcOutFn].band, d.rasters[refOutFn].band) &&
        Compressed(Subtract(d.rasters[srcOutFn].band, d.rasters[refOutFn].band).value.cells) != []
    ensures var o := ReportOutcome(d, ext, num, srcDemFn, refDemFn, outdir, logFile, outDiffFn, refOutFn, srcOutFn);
      o.result.Ok? ==>
        o.disk.rasters[outDiffFn] ==
          Raster(d.rasters[refOutFn].georef, Subtract(d.rasters[srcOutFn].band, d.rasters[refOutFn].band).value)
  {
    var o := ReportOutcome(d, ext, num, srcDemFn, refDemFn, outdir, logFile, outDiffFn, refOutFn, srcOutFn);
    if o.result.Ok? {
      var refClip, srcClip := d.rasters[refOutFn], d.rasters[srcOutFn];
      var v := Compressed(Subtract(srcClip.band, refClip.band).value.cells);
      var lines := ReportLines(num, srcDemFn, refDemFn, outDiffFn, outdir,
                               ext.nativeRes(srcClip), ext.nativeRes(refClip), Summarize(num, v));
      assert |Logger.Unlines(lines)| > 0;
    }
  }

  /**
   * DoD_Stats fails without touching the disk when a path list is empty (the reference
   * is unpacked first) or when `match` is unset.
   */
  lemma DoDStatsEarlyFailures(d: Disk, ext: Externals, num: Numerics, srcDemFn: PathArg, refDemFn: PathArg,
                              outdir: string, res: string, extent: string, doMatch: bool,
                              logFile: Option<string>, outDiffFn: Option<string>)
    ensures var o := DoDStatsOutcome(d, ext, num, srcDemFn, refDemFn, outdir, res, extent, doMatch, logFile, outDiffFn);
      (refDemFn == Listed([]) || srcDemFn == Listed([]) ==> o == Outcome(d, Err(IndexError))) &&
      (Normalize(refDemFn).Ok? && Normalize(srcDemFn).Ok? && !doMatch ==>
         o == Outcome(d, Err(UnboundLocal("ref_out_fn"))))
  {
  }

  /**
   * A failed DoD_Stats has written no log line (the statistics come before the first
   * append), and DoD_Stats never removes a raster.
   */
  lemma DoDStatsFailureKeepsTexts(d: Disk, ext: Externals, num: Numerics, srcDemFn: PathArg, refDemFn: PathArg,
                                  outdir: string, res: string, extent: string, doMatch: bool,
                                  logFile: Option<string>, outDiffFn: Option<string>)
    ensures var o := DoDStatsOutcome(d, ext, num, srcDemFn, refDemFn, outdir, res, extent, doMatch, logFile, outDiffFn);
      (o.result.Err? ==> o.disk.texts == d.texts) && d.rasters.Keys <= o.disk.rasters.Keys
  {
    var ref, src := Normalize(refDemFn), Normalize(srcDemFn);
    if ref.Ok? && src.Ok? && doMatch {
      MatchDemsKeepsFiles(d, ext, ref.value, src.value, outdir, res, extent, false);
      var m := MatchDemsOutcome(d, ext, ref.value, src.value, outdir, res, extent, false);
      if m.result.Ok? {
        var log := logFile.GetOr(DefaultStatsPath(outdir, src.value));
        var outDiff := outDiffFn.GetOr(DefaultDiffPath(outdir, src.value));
        ReportOutcomeEffect(m.disk, ext, num, src.value, ref.value, outdir, log, outDiff,
                            m.result.value.0, m.result.value.1);
      }
    }
  }

  /**
   * A successful DoD_Stats has appended to its log file (the given one, or the default
   * beside the source's stem) and left every other text file alone, and the difference
   * file exists.
   */
  lemma DoDStatsSuccess(d: Disk, ext: Externals, num: Numerics, srcDemFn: PathArg, refDemFn: PathArg,
                        outdir: string, res: string, extent: string, doMatch: bool,
                        logFile: Option<string>, outDiffFn: Option<string>)
    ensures var o := DoDStatsOutcome(d, ext, num, srcDemFn, refDemFn, outdir, res, extent, doMatch, logFile, outDiffFn);
      o.result.Ok? ==>
        var src := Normalize(srcDemFn).value;
        var log := logFile.GetOr(DefaultStatsPath(outdir, src));
        var outDiff := outDiffFn.GetOr(DefaultDiffPath(outdir, src));
        doMatch &&
        o.disk.texts.Keys == d.texts.Keys + {log} &&
        (forall p :: p in d.texts && p != log ==> o.disk.texts[p] == d.texts[p]) &&
        Logger.Prior(d.texts, log) < o.disk.texts[log] &&
        outDiff in o.disk.rasters
  {
    var ref, src := Normalize(refDemFn), Normalize(srcDemFn);
    if ref.Ok? && src.Ok? && doMatch {
      MatchDemsKeepsFiles(d, ext, ref.value, src.value, outdir, res, extent, false);
      var m := MatchDemsOutcome(d, ext, ref.value, src.value, outdir, res, extent, false);
      if m.result.Ok? {
        var log := logFile.GetOr(DefaultStatsPath(outdir, src.value));
        var outDiff := outDiffFn.GetOr(DefaultDiffPath(outdir, src.value));
        ReportOutcomeEffect(m.disk, ext, num, src.value, ref.value, outdir, log, outDiff,
                            m.result.value.0, m.result.value.1);
      }
    }
  }

  /**
   * Inputs already on a common grid: DoD_Stats' call `match_dems(ref_dem_fn, src_dem_fn, ...)`
   * passes them through with the roles exchanged, so the difference written is reference
   * minus source, on the source's georeferencing, and the log's "Source resolution" line
   * reports the reference's resolution.
   */
  lemma DoDStatsFastPath(d: Disk, ext: Externals, num: Numerics, src: string, ref: string, outdir: string,
                         res: string, extent: string, logFile: string, outDiff: string)
    requires src in d.rasters && ref in d.rasters
    requires OnCommonGrid(ext, d.rasters[src], d.rasters[ref])
    requires SameShape(d.rasters[ref].band, d.rasters[src].band)
    requires Compressed(Subtract(d.rasters[ref].band, d.rasters[src].band).value.cells) != []
    ensures var o := DoDStatsOutcome(d, ext, num, Single(src), Single(ref), outdir, res, extent, true,
                                     Some(logFile), Some(outDiff));
      var diff := Subtract(d.rasters[ref].band, d.rasters[src].band).value;
      var lines := ReportLines(num, src, ref, outDiff, outdir, ext.nativeRes(d.rasters[ref]),
                               ext.nativeRes(d.rasters[src]), Summarize(num, Compressed(diff.cells)));
      o.result == Ok(()) &&
      o.disk.rasters == d.rasters[outDiff := Raster(d.rasters[src].georef, diff)] &&
      o.disk.texts == d.texts[logFile := Logger.Prior(d.texts, logFile) + Logger.Unlines(lines)]
  {
    MatchDemsPassThrough(d, ext, ref, src, outdir, res, extent, false);
    assert MatchDemsOutcome(d, ext, ref, src, outdir, res, extent, false) == Outcome(d, Ok((src, ref)));
    assert DoDStatsOutcome(d, ext, num, Single(src), Single(ref), outdir, res, extent, true, Some(logFile), Some(outDiff))
        == ReportOutcome(d, ext, num, src, ref, outdir, logFile, outDiff, src, ref);
  }

  /**
   * Inputs off a common grid, with different stems: DoD_Stats calls match_dems without
   * `writeref`, so of the two `_matched.tif` names it gets back only the one made from its
   * reference is written. The one made from its source, which it opens first as the
   * reference clip, does not exist unless a file of that name was already there, so the
   * call fails after the warp, with nothing logged.
   */
  lemma DoDStatsOffGrid(d: Disk, ext: Externals, num: Numerics, srcDemFn: PathArg, refDemFn: PathArg,
                        outdir: string, res: string, extent: string,
                        logFile: Option<string>, outDiffFn: Option<string>)
    requires Normalize(srcDemFn).Ok? && Normalize(refDemFn).Ok?
    requires var src, ref := Normalize(srcDemFn).value, Normalize(refDemFn).value;
      src in d.rasters && ref in d.rasters && !OnCommonGrid(ext, d.rasters[src], d.rasters[ref]) &&
      Stem(Basename(src)) != Stem(Basename(ref)) && MatchedPath(outdir, src) !in d.rasters
    ensures var src, ref := Normalize(srcDemFn).value, Normalize(refDemFn).value;
      DoDStatsOutcome(d, ext, num, srcDemFn, refDemFn, outdir, res, extent, true, logFile, outDiffFn) ==
        Outcome(MatchDemsOutcome(d, ext, ref, src, outdir, res, extent, false).disk,
                Err(CannotOpen(MatchedPath(outdir, src))))
  {
    var src, ref := Normalize(srcDemFn).value, Normalize(refDemFn).value;
    MatchDemsWarps(d, ext, ref, src, outdir, res, extent, false);
    var m := MatchDemsOutcome(d, ext, ref, src, outdir, res, extent, false);
    assert m.result == Ok((MatchedPath(outdir, src), MatchedPath(outdir, ref)));
    assert MatchedPath(outdir, src) !in m.disk.rasters;
  }

  /**
   * Inputs off a common grid whose stems agree: the two `_matched.tif` names are one file,
   * holding the warped reference, and DoD_Stats differences that file with itself. It
   * succeeds exactly when the warped reference has a valid sample, and the difference it
   * writes is then zero wherever it is valid.
   */
  lemma DoDStatsOffGridSameStem(d: Disk, ext: Externals, num: Numerics, src: string, ref: string,
                                outdir: string, res: string, extent: string, logFile: string, outDiff: string)
    requires src in d.rasters && ref in d.rasters
    requires !OnCommonGrid(ext, d.rasters[src], d.rasters[ref])
    requires Stem(Basename(src)) == Stem(Basename(ref))
    ensures var o := DoDStatsOutcome(d, ext, num, Single(src), Single(ref), outdir, res, extent, true,
                                     Some(logFile), Some(outDiff));
      var w := ext.warp(d.rasters[src], d.rasters[ref], extent, res, d.rasters[ref].georef.srs);
      (o.result.Ok? <==> ValidCount(w.1.band.cells) > 0) &&
      (o.result.Ok? ==>
         outDiff in o.disk.rasters &&
         o.disk.rasters[outDiff] == Raster(w.0.georef, Subtract(w.1.band, w.1.band).value) &&
         forall k :: 0 <= k < |o.disk.rasters[outDiff].band.cells| && o.disk.rasters[outDiff].band.cells[k].Some? ==>
           o.disk.rasters[outDiff].band.cells[k].value == 0.0)
  {
    MatchDemsWarps(d, ext, ref, src, outdir, res, extent, false);
    var m := MatchDemsOutcome(d, ext, ref, src, outdir, res, extent, false);
    var w := ext.warp(d.rasters[src], d.rasters[ref], extent, res, d.rasters[ref].georef.srs);
    var f := MatchedPath(outdir, ref);
    assert MatchedPath(outdir, src) == f;
    assert m.result == Ok((f, f));
    assert m.disk.rasters[f] == Raster(w.0.georef, w.1.band);
    var s := DoDStatsOutcome(d, ext, num, Single(src), Single(ref), outdir, res, extent, true, Some(logFile), Some(outDiff));
    assert s == ReportOutcome(m.disk, ext, num, src, ref, outdir, logFile, outDiff, f, f);
    ReportOutcomeEffect(m.disk, ext, num, src, ref, outdir, logFile, outDiff, f, f);
    SelfDifference(w.1.band);
  }

  /** A successful match_diff returns its difference path and statistics path as named up front. */
  lemma MatchDiffNames(d: Disk, ext: Externals, num: Numerics, srcDemFn: string, refDemFn: string,
                       res: string, extent: string, outdir: Option<string>, alignStatsFn: Option<string>)
    ensures var o := MatchDiffOutcome(d, ext, num, srcDemFn, refDemFn, res, extent, outdir, alignStatsFn);
      var dir := MatchDiffTargets(srcDemFn, outdir).0;
      (o.result.Ok? ==> o.result.value == (MatchDiffTargets(srcDemFn, outdir).1, AlignStatsPath(dir, alignStatsFn))) &&
      (refDemFn !in d.rasters ==> o == Outcome(d, Err(CannotOpen(refDemFn)))) &&
      (refDemFn in d.rasters && srcDemFn !in d.rasters ==> o == Outcome(d, Err(CannotOpen(srcDemFn))))
  {
  }

  /** match_diff deletes no raster that its call of match_dems left on disk. */
  lemma MatchDiffKeepsRasters(d: Disk, ext: Externals, num: Numerics, srcDemFn: string, refDemFn: string,
                              res: string, extent: string, outdir: Option<string>, alignStatsFn: Option<string>)
    ensures var dir := MatchDiffTargets(srcDemFn, outdir).0;
      MatchDemsOutcome(d, ext, refDemFn, srcDemFn, dir, res, extent, true).disk.rasters.Keys
        <= MatchDiffOutcome(d, ext, num, srcDemFn, refDemFn, res, extent, outdir, alignStatsFn).disk.rasters.Keys
  {
    var (dir, diffFn) := MatchDiffTargets(srcDemFn, outdir);
    var m := MatchDemsOutcome(d, ext, refDemFn, srcDemFn, dir, res, extent, true);
    if m.result.Ok? {
      var statsFn := AlignStatsPath(dir, alignStatsFn);
      var s := DoDStatsOutcome(m.disk, ext, num, Single(m.result.value.0), Single(m.result.value.1), dir, res,
                               extent, true, Some(statsFn), Some(diffFn));
      DoDStatsFailureKeepsTexts(m.disk, ext, num, Single(m.result.value.0), Single(m.result.value.1), dir, res,
                                extent, true, Some(statsFn), Some(diffFn));
      assert MatchDiffOutcome(d, ext, num, srcDemFn, refDemFn, res, extent, outdir, alignStatsFn).disk == s.disk;
    }
  }

  /**
   * match_diff on inputs off a common grid leaves both `_matched.tif` files in its output
   * directory, whether or not the differencing that follows succeeds.
   */
  lemma MatchDiffKeepsMatched(d: Disk, ext: Externals, num: Numerics, srcDemFn: string, refDemFn: string,
                              res: string, extent: string, outdir: Option<string>, alignStatsFn: Option<string>)
    requires srcDemFn in d.rasters && refDemFn in d.rasters
    requires !OnCommonGrid(ext, d.rasters[srcDemFn], d.rasters[refDemFn])
    ensures var o := MatchDiffOutcome(d, ext, num, srcDemFn, refDemFn, res, extent, outdir, alignStatsFn);
      var dir := MatchDiffTargets(srcDemFn, outdir).0;
      MatchedPath(dir, srcDemFn) in o.disk.rasters && MatchedPath(dir, refDemFn) in o.disk.rasters
  {
    var dir := MatchDiffTargets(srcDemFn, outdir).0;
    MatchDemsWarps(d, ext, refDemFn, srcDemFn, dir, res, extent, true);
    MatchDiffKeepsRasters(d, ext, num, srcDemFn, refDemFn, res, extent, outdir, alignStatsFn);
  }

  /** match_diff ends as its inner DoD_Stats does once match_dems has returned a pair of names. */
  lemma MatchDiffAfterMatch(d: Disk, ext: Externals, num: Numerics, srcDemFn: string, refDemFn: string,
                            res: string, extent: string, outdir: Option<string>, alignStatsFn: Option<string>,
                            d1: Disk, refOutFn: string, srcOutFn: string)
    requires var dir := MatchDiffTargets(srcDemFn, outdir).0;
      MatchDemsOutcome(d, ext, refDemFn, srcDemFn, dir, res, extent, true) == Outcome(d1, Ok((refOutFn, srcOutFn)))
    ensures var (dir, diffFn) := MatchDiffTargets(srcDemFn, outdir);
      var statsFn := AlignStatsPath(dir, alignStatsFn);
      var s := DoDStatsOutcome(d1, ext, num, Single(refOutFn), Single(srcOutFn), dir, res, extent, true,
                               Some(statsFn), Some(diffFn));
      MatchDiffOutcome(d, ext, num, srcDemFn, refDemFn, res, extent, outdir, alignStatsFn) ==
        Outcome(s.disk, if s.result.Err? then Err(s.result.error) else Ok((diffFn, statsFn)))
  {
  }

  /**
   * match_diff on inputs off a common grid, with different stems: it writes both
   * `_matched.tif` files on the warped source's georeferencing, so its inner DoD_Stats finds
   * them on a common grid (the resolution and extent read only the geometry) and differences
   * them without a second warp. The difference file holds the warped reference minus the
   * warped source. This needs the warp to return bands of one shape, as a warp to a common
   * grid does, and a valid sample in the difference.
   */
  lemma MatchDiffWarped(d: Disk, ext: Externals, num: Numerics, srcDemFn: string, refDemFn: string,
                        res: string, extent: string, outdir: Option<string>, alignStatsFn: Option<string>)
    requires srcDemFn in d.rasters && refDemFn in d.rasters
    requires !OnCommonGrid(ext, d.rasters[srcDemFn], d.rasters[refDemFn])
    requires Stem(Basename(srcDemFn)) != Stem(Basename(refDemFn))
    requires var w := ext.warp(d.rasters[srcDemFn], d.rasters[refDemFn], extent, res, d.rasters[refDemFn].georef.srs);
      SameShape(w.1.band, w.0.band) && Compressed(Subtract(w.1.band, w.0.band).value.cells) != []
    ensures var o := MatchDiffOutcome(d, ext, num, srcDemFn, refDemFn, res, extent, outdir, alignStatsFn);
      var w := ext.warp(d.rasters[srcDemFn], d.rasters[refDemFn], extent, res, d.rasters[refDemFn].georef.srs);
      var (dir, diffFn) := MatchDiffTargets(srcDemFn, outdir);
      var statsFn := AlignStatsPath(dir, alignStatsFn);
      o.result == Ok((diffFn, statsFn)) && diffFn in o.disk.rasters &&
      o.disk.rasters[diffFn] == Raster(w.0.georef, Subtract(w.1.band, w.0.band).value) &&
      statsFn in o.disk.texts
  {
    var (dir, diffFn) := MatchDiffTargets(srcDemFn, outdir);
    var statsFn := AlignStatsPath(dir, alignStatsFn);
    var w := ext.warp(d.rasters[srcDemFn], d.rasters[refDemFn], extent, res, d.rasters[refDemFn].georef.srs);
    var a, b := MatchedPath(dir, srcDemFn), MatchedPath(dir, refDemFn);
    MatchDemsWarps(d, ext, refDemFn, srcDemFn, dir, res, extent, true);
    var m := MatchDemsOutcome(d, ext, refDemFn, srcDemFn, dir, res, extent, true);
    assert m == Outcome(m.disk, Ok((a, b)));
    assert m.disk.rasters[a] == w.0;
    assert m.disk.rasters[b] == Raster(w.0.georef, w.1.band);
    CommonGridOfSameGeometry(ext, m.disk.rasters[a], m.disk.rasters[b]);
    DoDStatsFastPath(m.disk, ext, num, a, b, dir, res, extent, statsFn, diffFn);
    MatchDiffAfterMatch(d, ext, num, srcDemFn, refDemFn, res, extent, outdir, alignStatsFn, m.disk, a, b);
  }

  /**
   * match_diff on inputs already on a common grid: the two exchanges of roles (match_diff's
   * call of match_dems, then DoD_Stats' own) cancel in the naming but not in the sign, so
   * the difference file holds reference minus source on the source's georeferencing.
   */
  lemma MatchDiffAligned(d: Disk, ext: Externals, num: Numerics, srcDemFn: string, refDemFn: string,
                         res: string, extent: string, outdir: Option<string>, alignStatsFn: Option<string>)
    requires srcDemFn in d.rasters && refDemFn in d.rasters
    requires OnCommonGrid(ext, d.rasters[srcDemFn], d.rasters[refDemFn])
    requires SameShape(d.rasters[refDemFn].band, d.rasters[srcDemFn].band)
    requires Compressed(Subtract(d.rasters[refDemFn].band, d.rasters[srcDemFn].band).value.cells) != []
    ensures var o := MatchDiffOutcome(d, ext, num, srcDemFn, refDemFn, res, extent, outdir, alignStatsFn);
      var (dir, diffFn) := MatchDiffTargets(srcDemFn, outdir);
      var statsFn := AlignStatsPath(dir, alignStatsFn);
      o.result == Ok((diffFn, statsFn)) &&
      o.disk.rasters[diffFn] == Raster(d.rasters[srcDemFn].georef,
                                       Subtract(d.rasters[refDemFn].band, d.rasters[srcDemFn].band).value) &&
      statsFn in o.disk.texts
  {
    var (dir, diffFn) := MatchDiffTargets(srcDemFn, outdir);
    MatchDemsPassThrough(d, ext, refDemFn, srcDemFn, dir, res, extent, true);
    DoDStatsFastPath(d, ext, num, srcDemFn, refDemFn, dir, res, extent, AlignStatsPath(dir, alignStatsFn), diffFn);
  }

  // --- the functions of the file, step by step -------------------------------------

  method ShiftDem(fs: FileSystem, ext: Externals, srcDemFn: string, outdir: string, shift: seq<Option<real>>)
    returns (r: Result<string>)
    modifies fs
    ensures var o := ShiftDemOutcome(old(fs.disk), ext, srcDemFn, outdir, shift);
      fs.disk == o.disk && r == o.result
  {
    if |shift| < 3 {
      return Err(IndexError);
    }
    var dx, dy, dz := shift[0], shift[1], shift[2];
    var srcDemDs := Open(fs.disk, srcDemFn);
    if srcDemDs.None? {
      return Err(CannotOpen(srcDemFn));
    }
    var srcDemDsAlign := new MemDataset.CreateCopy(srcDemDs.value);
    if dx.Some? && dy.Some? && dz.Some? {
      srcDemDsAlign.ApplyXYShift(ext, dx.value, dy.value);
      srcDemDsAlign.ApplyZShift(ext, dz.value);
    }
    var srcDemFullAlign := srcDemDsAlign.raster.band;
    var srcOutFn := Join(outdir, Stem(Basename(srcDemFn)) + "_shifted.tif");
    fs.WriteGTiff(srcDemFullAlign, srcOutFn, srcDemDsAlign.raster);
    return Ok(srcOutFn);
  }

  method MatchDems(fs: FileSystem, ext: Externals, srcDemFn: string, refDemFn: string, outdir: string,
                   res: string, extent: string, writeref: bool) returns (r: Result<(string, string)>)
    modifies fs
    ensures var o := MatchDemsOutcome(old(fs.disk), ext, srcDemFn, refDemFn, outdir, res, extent, writeref);
      fs.disk == o.disk && r == o.result
  {
    var refDemDs := Open(fs.disk, refDemFn);
    var srcDemDs := Open(fs.disk, srcDemFn);
    if srcDemDs.None? {
      return Err(CannotOpen(srcDemFn));
    }
    var localSrs := srcDemDs.value.georef.srs;
    if refDemDs.None? {
      return Err(CannotOpen(refDemFn));
    }
    var refDemRes := ext.roundedRes(refDemDs.value.georef, refDemDs.value.band.rows, refDemDs.value.band.cols, localSrs);
    var srcDemRes := ext.roundedRes(srcDemDs.value.georef, srcDemDs.value.band.rows, srcDemDs.value.band.cols, localSrs);
    var refExtent := ext.roundedExtent(refDemDs.value.georef, refDemDs.value.band.rows, refDemDs.value.band.cols, localSrs);
    var srcExtent := ext.roundedExtent(srcDemDs.value.georef, srcDemDs.value.band.rows, srcDemDs.value.band.cols, localSrs);
    if refDemRes == srcDemRes && refExtent == srcExtent {
      return Ok((refDemFn, srcDemFn));
    }
    var srcDemDsAlign := new MemDataset.CreateCopy(srcDemDs.value);
    var warped := ext.warp(refDemDs.value, srcDemDsAlign.raster, extent, res, localSrs);
    var refWarped := warped.0;
    srcDemDsAlign.raster := warped.1;
    var srcDemArray := srcDemDsAlign.raster.band;
    var refOutFn := Join(outdir, Stem(Basename(refDemFn)) + "_matched.tif");
    var srcOutFn := Join(outdir, Stem(Basename(srcDemFn)) + "_matched.tif");
    fs.WriteGTiff(srcDemArray, srcOutFn, refWarped);
    if writeref {
      var refDemArray := refWarped.band;
      fs.WriteGTiff(refDemArray, refOutFn, refWarped);
    }
    return Ok((refOutFn, srcOutFn));
  }

  /** `utilities.log(msg, log_file)` after at least one earlier append, with the lines appended so far as ghost bookkeeping. */
  method Log(fs: FileSystem, ghost t0: map<string, string>, logFile: string, ghost prior: string,
             ghost done: seq<string>, msg: string)
    requires fs.disk.texts == t0[logFile := prior + Logger.Unlines(done)]
    modifies fs
    ensures fs.disk.texts == t0[logFile := prior + Logger.Unlines(done + [msg])]
    ensures fs.disk.rasters == old(fs.disk.rasters)
  {
    var _ := Logger.Log(fs, msg, logFile, false, true);
    Logger.LoggedSnoc(prior, done, msg);
  }

  method DoDStats(fs: FileSystem, ext: Externals, num: Numerics, srcDemFn: PathArg, refDemFn: PathArg,
                  outdir: string, res: string, extent: string, doMatch: bool,
                  logFile: Option<string>, outDiffFn: Option<string>) returns (r: Result<()>)
    modifies fs
    ensures var o := DoDStatsOutcome(old(fs.disk), ext, num, srcDemFn, refDemFn, outdir, res, extent,
                                     doMatch, logFile, outDiffFn);
      fs.disk == o.disk && r == o.result
  {
    var refN := Normalize(refDemFn);
    var srcN := Normalize(srcDemFn);
    if refN.Err? {
      return Err(refN.error);
    }
    if srcN.Err? {
      return Err(srcN.error);
    }
    var ref, src := refN.value, srcN.value;
    var outDiff := if outDiffFn.None? then outdir + Basename(Stem(src)) + "_diff.tif" else outDiffFn.value;
    var log := if logFile.None? then outdir + Basename(Stem(src)) + "_stats.txt" else logFile.value;
    if !doMatch {
      return Err(UnboundLocal("ref_out_fn"));
    }
    var pair := MatchDems(fs, ext, ref, src, outdir, res, extent, false);
    if pair.Err? {
      return Err(pair.error);
    }
    r := Report(fs, ext, num, src, ref, outdir, log, outDiff, pair.value.0, pair.value.1);
  }

  /**
   * The 17 `utilities.log(line, log_file)` calls of DoD_Stats, one after another, each
   * appending its line (`lines` is ReportLines: the five header lines, then the twelve metrics).
   */
  method AppendReport(fs: FileSystem, log: string, lines: seq<string>)
    requires |lines| == 17
    modifies fs
    ensures fs.disk.texts == old(fs.disk.texts)[log := Logger.Prior(old(fs.disk.texts), log) + Logger.Unlines(lines)]
    ensures fs.disk.rasters == old(fs.disk.rasters)
  {
    ghost var t0 := fs.disk.texts;
    ghost var prior := Logger.Prior(t0, log);
    var _ := Logger.Log(fs, lines[0], log, false, true);
    assert prior + Logger.Unlines([]) == prior;
    Logger.LoggedSnoc(prior, [], lines[0]);
    ghost var done: seq<string> := [lines[0]];
    Log(fs, t0, log, prior, done, lines[1]);
    done := done + [lines[1]];
    Log(fs, t0, log, prior, done, lines[2]);
    done := done + [lines[2]];
    Log(fs, t0, log, prior, done, lines[3]);
    done := done + [lines[3]];
    Log(fs, t0, log, prior, done, lines[4]);
    done := done + [lines[4]];
    assert done == lines[..5];
    AppendMetrics(fs, t0, log, prior, done, lines[5..11]);
    assert done + lines[5..11] == lines[..11];
    AppendMetrics(fs, t0, log, prior, lines[..11], lines[11..]);
    assert lines[..11] + lines[11..] == lines;
  }

  /** Six of the twelve metric calls, one per line. */
  method AppendMetrics(fs: FileSystem, ghost t0: map<string, string>, log: string, ghost prior: string,
                       ghost head: seq<string>, metrics: seq<string>)
    requires |metrics| == 6
    requires fs.disk.texts == t0[log := prior + Logger.Unlines(head)]
    modifies fs
    ensures fs.disk.texts == t0[log := prior + Logger.Unlines(head + metrics)]
    ensures fs.disk.rasters == old(fs.disk.rasters)
  {
    ghost var done := head;
    Log(fs, t0, log, prior, done, metrics[0]);
    done := done + [metrics[0]];
    Log(fs, t0, log, prior, done, metrics[1]);
    done := done + [metrics[1]];
    Log(fs, t0, log, prior, done, metrics[2]);
    done := done + [metrics[2]];
    Log(fs, t0, log, prior, done, metrics[3]);
    done := done + [metrics[3]];
    Log(fs, t0, log, prior, done, metrics[4]);
    done := done + [metrics[4]];
    Log(fs, t0, log, prior, done, metrics[5]);
    done := done + [metrics[5]];
    assert done == head + metrics;
  }

  /** The body of DoD_Stats once the matched pair is bound. */
  method Report(fs: FileSystem, ext: Externals, num: Numerics, src: string, ref: string, outdir: string,
                log: string, outDiff: string, refOutFn: string, srcOutFn: string) returns (r: Result<()>)
    modifies fs
    ensures var o := ReportOutcome(old(fs.disk), ext, num, src, ref, outdir, log, outDiff, refOutFn, srcOutFn);
      fs.disk == o.disk && r == o.result
  {
    var refDemClipDs := Open(fs.disk, refOutFn);
    var srcDemClipDs := Open(fs.disk, srcOutFn);
    if refDemClipDs.None? {
      return Err(CannotOpen(refOutFn));
    }
    var refRes := ext.nativeRes(refDemClipDs.value);
    if srcDemClipDs.None? {
      return Err(CannotOpen(srcOutFn));
    }
    var srcRes := ext.nativeRes(srcDemClipDs.value);
    // A resolution mismatch at four decimals is only printed.
    var diffMatch := Subtract(srcDemClipDs.value.band, refDemClipDs.value.band);
    if diffMatch.Err? {
      return Err(diffMatch.error);
    }
    var v := Compressed(diffMatch.value.cells);
    if v == [] {
      return Err(EmptyReduction);
    }
    var s := Summarize(num, v);

    AppendReport(fs, log, ReportLines(num, src, ref, outDiff, outdir, srcRes, refRes, s));
    fs.WriteGTiff(diffMatch.value, outDiff, refDemClipDs.value);
    return Ok(());
  }
  method MatchDiff(fs: FileSystem, ext: Externals, num: Numerics, srcDemFn: string, refDemFn: string,
                   res: string, extent: string, outdir: Option<string>, alignStatsFn: Option<string>)
    returns (r: Result<(string, string)>)
    modifies fs
    ensures var o := MatchDiffOutcome(old(fs.disk), ext, num, srcDemFn, refDemFn, res, extent, outdir, alignStatsFn);
      fs.disk == o.disk && r == o.result
  {
    var dir: string, diffFn: string;
    if outdir.None? {
      dir := Dirname(srcDemFn);
      diffFn := Splitext(srcDemFn).0 + "_diff.tif";
    } else if EndsWith(outdir.value, ".tif") {
      dir, diffFn := outdir.value, outdir.value;
    } else {
      dir, diffFn := outdir.value, Join(outdir.value, "Matched_DoD.tif");
    }
    var pair := MatchDems(fs, ext, refDemFn, srcDemFn, dir, res, extent, true);
    if pair.Err? {
      return Err(pair.error);
    }
    // The four datasets opened here only serve prints; they exist once match_dems succeeded.
    var statsFn := if alignStatsFn.None? then Join(dir, "Matched_DoD_Stats.txt") else alignStatsFn.value;
    var s := DoDStats(fs, ext, num, Single(pair.value.0), Single(pair.value.1), dir, res, extent, true,
                      Some(statsFn), Some(diffFn));
    if s.Err? {
      return Err(s.error);
    }
    return Ok((diffFn, statsFn));
  }
}
