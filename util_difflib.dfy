/**
 * utilities/difflib.py: shift_dem and match_dems, textually the pygeo_lib ones, and a
 * match_diff whose differencing step is the DoD_Stats of utilities/statslib.py.
 */
module UtilDiff {
  import opened Wrappers
  import opened Paths
  import opened Rasters
  import opened Storage
  import opened Naming
  import opened Alignment
  import StatsLib

  /**
   * match_diff(src_dem_fn, ref_dem_fn, res, extent, outdir, align_stats_fn): as in pygeo_lib,
   * but the DoD_Stats it calls is StatsLib.DoDStats.
   */
  function MatchDiffOutcome(d: Disk, ext: Externals, srcDemFn: string, refDemFn: string,
                            res: string, extent: string, outdir: Option<string>,
                            alignStatsFn: Option<string>): Outcome<(string, string)> {
    var (dir, diffFn) := MatchDiffTargets(srcDemFn, outdir);
    var m := MatchDemsOutcome(d, ext, refDemFn, srcDemFn, dir, res, extent, true);
    if m.result.Err? then Outcome(m.disk, Err(m.result.error))
    else
      var statsFn := AlignStatsPath(dir, alignStatsFn);
      var s := StatsLib.DoDStats(Single(m.result.value.0), Single(m.result.value.1), dir, res, extent, true,
                                 Some(statsFn), Some(diffFn));
      if s.Err? then Outcome(m.disk, Err(s.error)) else Outcome(m.disk, Ok((diffFn, statsFn)))
  }

  /**
   * This match_diff never returns its names: it fails where match_dems fails, and otherwise
   * with the NameError of statslib's DoD_Stats, after match_dems has written its files and
   * before any statistics are logged.
   */
  lemma MatchDiffAlwaysFails(d: Disk, ext: Externals, srcDemFn: string, refDemFn: string,
                             res: string, extent: string, outdir: Option<string>, alignStatsFn: Option<string>)
    ensures var o := MatchDiffOutcome(d, ext, srcDemFn, refDemFn, res, extent, outdir, alignStatsFn);
      var m := MatchDemsOutcome(d, ext, refDemFn, srcDemFn, MatchDiffTargets(srcDemFn, outdir).0, res, extent, true);
      o.result.Err? &&
      o.disk == m.disk &&
      o.disk.texts == d.texts &&
      (refDemFn in d.rasters && srcDemFn in d.rasters ==> o.result.error == NameError("match_dems")) &&
      (refDemFn !in d.rasters ==> o.result.error == CannotOpen(refDemFn)) &&
      (refDemFn in d.rasters && srcDemFn !in d.rasters ==> o.result.error == CannotOpen(srcDemFn))
  {
    var dir := MatchDiffTargets(srcDemFn, outdir).0;
    MatchDemsKeepsFiles(d, ext, refDemFn, srcDemFn, dir, res, extent, true);
  }

  // --- the functions of the file, step by step -------------------------------------

  method ShiftDem(fs: FileSystem, ext: Externals, srcDemFn: string, outdir: string, shift: seq<Option<real>>)
    returns (r: Result<string>)
    modifies fs
    ensures var o := ShiftDemOutcome(old(fs.disk), ext, srcDemFn, outdir, shift);
      fs.disk == o.disk && r == o.result
  {
    if |shift| < 3 {
      return Err(IndexError);
    }
    var dx, dy, dz := shift[0], shift[1], shift[2];
    var srcDemDs := Open(fs.disk, srcDemFn);
    if srcDemDs.None? {
      return Err(CannotOpen(srcDemFn));
    }
    var srcDemDsAlign := new MemDataset.CreateCopy(srcDemDs.value);
    if dx.Some? && dy.Some? && dz.Some? {
      srcDemDsAlign.ApplyXYShift(ext, dx.value, dy.value);
      srcDemDsAlign.ApplyZShift(ext, dz.value);
    }
    var srcDemFullAlign := srcDemDsAlign.raster.band;
    var srcOutFn := Join(outdir, Stem(Basename(srcDemFn)) + "_shifted.tif");
    fs.WriteGTiff(srcDemFullAlign, srcOutFn, srcDemDsAlign.raster);
    return Ok(srcOutFn);
  }

  method MatchDems(fs: FileSystem, ext: Externals, srcDemFn: string, refDemFn: string, outdir: string,
                   res: string, extent: string, writeref: bool) returns (r: Result<(string, string)>)
    modifies fs
    ensures var o := MatchDemsOutcome(old(fs.disk), ext, srcDemFn, refDemFn, outdir, res, extent, writeref);
      fs.disk == o.disk && r == o.result
  {
    var refDemDs := Open(fs.disk, refDemFn);
    var srcDemDs := Open(fs.disk, srcDemFn);
    if srcDemDs.None? {
      return Err(CannotOpen(srcDemFn));
    }
    var localSrs := srcDemDs.value.georef.srs;
    if refDemDs.None? {
      return Err(CannotOpen(refDemFn));
    }
    var refDemRes := ext.roundedRes(refDemDs.value.georef, refDemDs.value.band.rows, refDemDs.value.band.cols, localSrs);
    var srcDemRes := ext.roundedRes(srcDemDs.value.georef, srcDemDs.value.band.rows, srcDemDs.value.band.cols, localSrs);
    var refExtent := ext.roundedExtent(refDemDs.value.georef, refDemDs.value.band.rows, refDemDs.value.band.cols, localSrs);
    var srcExtent := ext.roundedExtent(srcDemDs.value.georef, srcDemDs.value.band.rows, srcDemDs.value.band.cols, localSrs);
    if refDemRes == srcDemRes && refExtent == srcExtent {
      return Ok((refDemFn, srcDemFn));
    }
    var srcDemDsAlign := new MemDataset.CreateCopy(srcDemDs.value);
    var warped := ext.warp(refDemDs.value, srcDemDsAlign.raster, extent, res, localSrs);
    var refWarped := warped.0;
    srcDemDsAlign.raster := warped.1;
    var srcDemArray := srcDemDsAlign.raster.band;
    var refOutFn := Join(outdir, Stem(Basename(refDemFn)) + "_matched.tif");
    var srcOutFn := Join(outdir, Stem(Basename(srcDemFn)) + "_matched.tif");
    fs.WriteGTiff(srcDemArray, srcOutFn, refWarped);
    if writeref {
      var refDemArray := refWarped.band;
      fs.WriteGTiff(refDemArray, refOutFn, refWarped);
    }
    return Ok((refOutFn, srcOutFn));
  }

  method MatchDiff(fs: FileSystem, ext: Externals, srcDemFn: string, refDemFn: string,
                   res: string, extent: string, outdir: Option<string>, alignStatsFn: Option<string>)
    returns (r: Result<(string, string)>)
    modifies fs
    ensures var o := MatchDiffOutcome(old(fs.disk), ext, srcDemFn, refDemFn, res, extent, outdir, alignStatsFn);
      fs.disk == o.disk && r == o.result
  {
    var dir: string, diffFn: string;
    if outdir.None? {
      dir := Dirname(srcDemFn);
      diffFn := Splitext(srcDemFn).0 + "_diff.tif";
    } else if EndsWith(outdir.value, ".tif") {
      dir, diffFn := outdir.value, outdir.value;
    } else {
      dir, diffFn := outdir.value, Join(outdir.value, "Matched_DoD.tif");
    }
    var pair := MatchDems(fs, ext, refDemFn, srcDemFn, dir, res, extent, true);
    if pair.Err? {
      return Err(pair.error);
    }
    var statsFn := if alignStatsFn.None? then Join(dir, "Matched_DoD_Stats.txt") else alignStatsFn.value;
    var s := StatsLib.DoDStats(Single(pair.value.0), Single(pair.value.1), dir, res, extent, true,
                               Some(statsFn), Some(diffFn));
    if s.Err? {
      return Err(s.error);
    }
    return Ok((diffFn, statsFn));
  }
}
