/**
 * What `match_dems` and `shift_dem` leave on disk and return. The two difflib modules hold
 * textually identical copies of both functions; each copy is a method proved against the
 * outcome functions here.
 */
module Alignment {
  import opened Wrappers
  import opened Paths
  import opened Rasters
  import opened Storage
  import opened Naming

  /**
   * match_dems' already-aligned test: resolutions (5 decimals) and extents (3 decimals)
   * agree once both are taken in the spatial reference of `src`.
   */
  predicate OnCommonGrid(ext: Externals, ref: Raster, src: Raster) {
    var localSrs := src.georef.srs;
    ext.roundedRes(ref.georef, ref.band.rows, ref.band.cols, localSrs) ==
      ext.roundedRes(src.georef, src.band.rows, src.band.cols, localSrs) &&
    ext.roundedExtent(ref.georef, ref.band.rows, ref.band.cols, localSrs) ==
      ext.roundedExtent(src.georef, src.band.rows, src.band.cols, localSrs)
  }

  /** Two rasters with one geotransform and one size in pixels are on a common grid, whatever their samples. */
  lemma CommonGridOfSameGeometry(ext: Externals, ref: Raster, src: Raster)
    requires ref.georef == src.georef && ref.band.rows == src.band.rows && ref.band.cols == src.band.cols
    ensures OnCommonGrid(ext, ref, src)
  {
  }

  /**
   * match_dems(src_dem_fn, ref_dem_fn, outdir, res, extent, writeref). An input that does
   * not open ends the call (the source's SRS is asked for first). Inputs already on a common
   * grid come back as they are; otherwise both are warped, the warped source is written
   * with the warped reference as template, the warped reference only when `writeref`, and
   * the two `_matched.tif` names come back.
   */
  function MatchDemsOutcome(d: Disk, ext: Externals, srcDemFn: string, refDemFn: string, outdir: string,
                            res: string, extent: string, writeref: bool): Outcome<(string, string)> {
    if srcDemFn !in d.rasters then Outcome(d, Err(CannotOpen(srcDemFn)))
    else if refDemFn !in d.rasters then Outcome(d, Err(CannotOpen(refDemFn)))
    else
      var ref, src := d.rasters[refDemFn], d.rasters[srcDemFn];
      if OnCommonGrid(ext, ref, src) then Outcome(d, Ok((refDemFn, srcDemFn)))
      else
        var warped := ext.warp(ref, src, extent, res, src.georef.srs);
        var refOut, srcOut := MatchedPath(outdir, refDemFn), MatchedPath(outdir, srcDemFn);
        var d1 := WrittenGTiff(d, warped.1.band, srcOut, warped.0);
        Outcome(if writeref then WrittenGTiff(d1, warped.0.band, refOut, warped.0) else d1, Ok((refOut, srcOut)))
  }

  /** No `_matched.tif` name is the name it was made from. */
  lemma MatchedPathIsNew(outdir: string, fn: string)
    ensures MatchedPath(outdir, fn) != fn
  {
    OutputPathPlacement(outdir, fn, "_matched.tif");
    var b := Basename(fn);
    assert Splitext(b).0 + Splitext(b).1 == b;
  }

  /**
   * With both inputs readable, match_dems hands back the inputs' own paths exactly when
   * they are already on a common grid, and then writes nothing.
   */
  lemma MatchDemsPassThrough(d: Disk, ext: Externals, srcDemFn: string, refDemFn: string, outdir: string,
                             res: string, extent: string, writeref: bool)
    requires srcDemFn in d.rasters && refDemFn in d.rasters
    ensures var o := MatchDemsOutcome(d, ext, srcDemFn, refDemFn, outdir, res, extent, writeref);
      (o.result == Ok((refDemFn, srcDemFn)) <==> OnCommonGrid(ext, d.rasters[refDemFn], d.rasters[srcDemFn])) &&
      (OnCommonGrid(ext, d.rasters[refDemFn], d.rasters[srcDemFn]) ==> o.disk == d)
  {
    MatchedPathIsNew(outdir, srcDemFn);
  }

  /**
   * Off a common grid: the `_matched.tif` pair is returned, the source's file holds the
   * warped source on the warped reference's georeferencing (unless the reference's file,
   * written after it under the same name, replaces it), the reference's file is written
   * only with `writeref`, and no other file changes.
   */
  lemma MatchDemsWarps(d: Disk, ext: Externals, srcDemFn: string, refDemFn: string, outdir: string,
                       res: string, extent: string, writeref: bool)
    requires srcDemFn in d.rasters && refDemFn in d.rasters
    requires !OnCommonGrid(ext, d.rasters[refDemFn], d.rasters[srcDemFn])
    ensures var o := MatchDemsOutcome(d, ext, srcDemFn, refDemFn, outdir, res, extent, writeref);
      var ref, src := d.rasters[refDemFn], d.rasters[srcDemFn];
      var warped := ext.warp(ref, src, extent, res, src.georef.srs);
      var refOut, srcOut := MatchedPath(outdir, refDemFn), MatchedPath(outdir, srcDemFn);
      o.result == Ok((refOut, srcOut)) &&
      o.disk.texts == d.texts &&
      o.disk.rasters.Keys == d.rasters.Keys + {srcOut} + (if writeref then {refOut} else {}) &&
      (!writeref || refOut != srcOut ==> o.disk.rasters[srcOut] == Raster(warped.0.georef, warped.1.band)) &&
      (writeref ==> o.disk.rasters[refOut] == warped.0) &&
      (forall p :: p in d.rasters && p != srcOut && (p != refOut || !writeref) ==> o.disk.rasters[p] == d.rasters[p]) &&
      (refOut == srcOut <==> Stem(Basename(refDemFn)) == Stem(Basename(srcDemFn)))
  {
    MatchedPathsCollide(outdir, refDemFn, srcDemFn);
  }

  /** A failed match_dems names the input that did not open and leaves the disk as it was. */
  lemma MatchDemsFailure(d: Disk, ext: Externals, srcDemFn: string, refDemFn: string, outdir: string,
                         res: string, extent: string, writeref: bool)
    ensures var o := MatchDemsOutcome(d, ext, srcDemFn, refDemFn, outdir, res, extent, writeref);
      o.result.Err? <==> srcDemFn !in d.rasters || refDemFn !in d.rasters
    ensures var o := MatchDemsOutcome(d, ext, srcDemFn, refDemFn, outdir, res, extent, writeref);
      o.result.Err? ==> (o.disk == d &&
        o.result.error == CannotOpen(if srcDemFn !in d.rasters then srcDemFn else refDemFn))
  {
  }

  /** match_dems never touches a text file and never removes a raster. */
  lemma MatchDemsKeepsFiles(d: Disk, ext: Externals, srcDemFn: string, refDemFn: string, outdir: string,
                            res: string, extent: string, writeref: bool)
    ensures var o := MatchDemsOutcome(d, ext, srcDemFn, refDemFn, outdir, res, extent, writeref);
      o.disk.texts == d.texts && d.rasters.Keys <= o.disk.rasters.Keys
  {
  }

  /** The in-memory copy after shift_dem's gate: both shifts when dx, dy and dz are all given, none otherwise. */
  function Shifted(ext: Externals, r: Raster, dx: Option<real>, dy: Option<real>, dz: Option<real>): Raster {
    if dx.Some? && dy.Some? && dz.Some? then ext.applyZShift(ext.applyXYShift(r, dx.value, dy.value), dz.value)
    else r
  }

  /**
   * shift_dem(src_dem_fn, outdir, shift): `shift[0..2]` are read first, then the source is
   * opened, copied and shifted, and the copy written to `<stem>_shifted.tif` in `outdir`.
   */
  function ShiftDemOutcome(d: Disk, ext: Externals, srcDemFn: string, outdir: string,
                           shift: seq<Option<real>>): Outcome<string> {
    if |shift| < 3 then Outcome(d, Err(IndexError))
    else if srcDemFn !in d.rasters then Outcome(d, Err(CannotOpen(srcDemFn)))
    else
      var aligned := Shifted(ext, d.rasters[srcDemFn], shift[0], shift[1], shift[2]);
      var out := ShiftedPath(outdir, srcDemFn);
      Outcome(WrittenGTiff(d, aligned.band, out, aligned), Ok(out))
  }

  /**
   * shift_dem writes exactly one file, `<stem>_shifted.tif` in `outdir`, and returns its name;
   * it holds the source with both shifts applied when all three components are given, and an
   * unmodified copy of the source otherwise.
   */
  lemma ShiftDemWrites(d: Disk, ext: Externals, srcDemFn: string, outdir: string, shift: seq<Option<real>>)
    requires |shift| >= 3 && srcDemFn in d.rasters
    ensures var o := ShiftDemOutcome(d, ext, srcDemFn, outdir, shift);
      var out := ShiftedPath(outdir, srcDemFn);
      var src := d.rasters[srcDemFn];
      o.result == Ok(out) &&
      Basename(out) == Stem(Basename(srcDemFn)) + "_shifted.tif" &&
      o.disk.texts == d.texts &&
      o.disk.rasters.Keys == d.rasters.Keys + {out} &&
      (forall p :: p in d.rasters && p != out ==> o.disk.rasters[p] == d.rasters[p]) &&
      (shift[0].Some? && shift[1].Some? && shift[2].Some? ==>
         o.disk.rasters[out] == ext.applyZShift(ext.applyXYShift(src, shift[0].value, shift[1].value), shift[2].value)) &&
      (shift[0].None? || shift[1].None? || shift[2].None? ==> o.disk.rasters[out] == src)
  {
    OutputPathPlacement(outdir, srcDemFn, "_shifted.tif");
  }

  /** A shift shorter than three fails before the source is opened; a missing source fails next; neither writes. */
  lemma ShiftDemFailure(d: Disk, ext: Externals, srcDemFn: string, outdir: string, shift: seq<Option<real>>)
    ensures var o := ShiftDemOutcome(d, ext, srcDemFn, outdir, shift);
      (|shift| < 3 ==> o == Outcome(d, Err(IndexError))) &&
      (|shift| >= 3 && srcDemFn !in d.rasters ==> o == Outcome(d, Err(CannotOpen(srcDemFn))))
  {
  }
}
