/**
 * The file system the pipeline reads and writes: text files (the statistics logs) and
 * GeoTIFF rasters, each a map from path to content.
 */
module Storage {
  import opened Wrappers
  import opened Rasters

  datatype Disk = Disk(texts: map<string, string>, rasters: map<string, Raster>)

  /** What a step leaves on disk, and how it ended. */
  datatype Outcome<T> = Outcome(disk: Disk, result: Result<T>)

  /** `gdal.Open(path)`: the dataset, or `None` when there is no raster at `path`. */
  function Open(d: Disk, path: string): (r: Option<Raster>)
    ensures r.Some? <==> path in d.rasters
    ensures r.Some? ==> r.value == d.rasters[path]
  {
    if path in d.rasters then Some(d.rasters[path]) else None
  }

  /** `iolib.writeGTiff(a, path, template)`: a new GeoTIFF holding `a`, georeferenced like `template`. */
  function WrittenGTiff(d: Disk, a: Grid, path: string, template: Raster): (d': Disk)
    ensures d'.texts == d.texts
    ensures d'.rasters.Keys == d.rasters.Keys + {path}
    ensures d'.rasters[path] == Raster(template.georef, a)
    ensures forall p :: p in d.rasters && p != path ==> d'.rasters[p] == d.rasters[p]
  {
    d.(rasters := d.rasters[path := Raster(template.georef, a)])
  }

  class FileSystem {
    var disk: Disk

    constructor (initial: Disk)
      ensures disk == initial
    {
      disk := initial;
    }

    method WriteGTiff(a: Grid, path: string, template: Raster)
      modifies this
      ensures disk == WrittenGTiff(old(disk), a, path, template)
    {
      disk := disk.(rasters := disk.rasters[path := Raster(template.georef, a)]);
    }
  }
}
