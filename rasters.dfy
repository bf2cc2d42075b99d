/**
 * Georeferenced rasters as the pipeline sees them through GDAL and pygeotools, and the
 * foreign geodesy, resampling and co-registration routines it calls, taken as given
 * functions.
 */
module Rasters {
  import opened Wrappers

  /** Geotransform and spatial reference; only carried along and copied, never computed with. */
  datatype Georef = Georef(originX: real, originY: real, pixelWidth: real, pixelHeight: real, srs: string)

  /** A nodata-masked 2-D array in row-major order (`iolib.ds_getma`); `None` is a masked sample. */
  datatype Grid = Grid(rows: nat, cols: nat, cells: seq<Option<real>>)

  /** An opened dataset: georeferencing plus its masked band. */
  datatype Raster = Raster(georef: Georef, band: Grid)

  /**
   * Results of the routines the pipeline delegates to, supplied by the caller.
   * Resolutions and extents arrive already rounded, as integers in units of the last kept decimal.
   * Both read only a dataset's geometry (its geotransform and its size in pixels), never
   * its samples.
   */
  datatype Externals = Externals(
    roundedRes: (Georef, nat, nat, string) -> int,       // np.round(geolib.get_res(ds, t_srs=srs, square=True)[0], 5), in 1e-5
    roundedExtent: (Georef, nat, nat, string) -> seq<int>,  // [round(x, 3) for x in geolib.ds_geom_extent(ds, t_srs=srs)], in 1e-3
    nativeRes: Raster -> real,                    // geolib.get_res(ds, square=True)[0]
    warp: (Raster, Raster, string, string, string) -> (Raster, Raster),  // warplib.memwarp_multi([a, b], extent, res, t_srs, r='cubic')
    applyXYShift: (Raster, real, real) -> Raster, // coreglib.apply_xy_shift(ds, dx, dy, createcopy=False)
    applyZShift: (Raster, real) -> Raster)        // coreglib.apply_z_shift(ds, dz, createcopy=False)

  /** An in-memory dataset (`iolib.mem_drv.CreateCopy('', ds, 0)`) that the shift routines update in place. */
  class MemDataset {
    var raster: Raster

    constructor CreateCopy(src: Raster)
      ensures raster == src
    {
      raster := src;
    }

    method ApplyXYShift(ext: Externals, dx: real, dy: real)
      modifies this
      ensures raster == ext.applyXYShift(old(raster), dx, dy)
    {
      raster := ext.applyXYShift(raster, dx, dy);
    }

    method ApplyZShift(ext: Externals, dz: real)
      modifies this
      ensures raster == ext.applyZShift(old(raster), dz)
    {
      raster := ext.applyZShift(raster, dz);
    }
  }
}
