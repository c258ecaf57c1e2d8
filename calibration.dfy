/** The load-once calibration cache of `load_cal_param` (run_measurement.py). The two
    module globals `mtx_loaded` and `dist_loaded` become the fields of a store object;
    the calibration archive on disk becomes a map from path to archive contents. */
module Calibration {
  import opened Results
  import opened Camera

  /** What `np.load` finds in an archive: the arrays stored under 'mtx' and 'dist'
      (either may be absent from the file). */
  datatype Archive = Archive(mtx: Option<Mat3>, dist: Option<seq<real>>)

  /** `np.load` of a missing file, or indexing the archive with a missing key. */
  datatype LoadError = FileNotFound(path: string) | KeyError(key: string)

  /** The three shapes of the return value, chosen by `param`. */
  datatype CalParams = Mtx(mtx: Mat3) | Dist(dist: seq<real>) | Both(mtx: Mat3, dist: seq<real>)

  /** The value `param` selects: 'mtx' the matrix, 'dist' the coefficients, any other
      string (the default is 'both') the pair. */
  function SelectParam(param: string, mtx: Mat3, dist: seq<real>): (r: CalParams)
    ensures r.Mtx? <==> param == "mtx"
    ensures r.Dist? <==> param == "dist"
    ensures r.Mtx? || r.Both? ==> r.mtx == mtx
    ensures r.Dist? || r.Both? ==> r.dist == dist
  {
    if param == "mtx" then Mtx(mtx)
    else if param == "dist" then Dist(dist)
    else Both(mtx, dist)
  }

  /** `np.load(path)` followed by `loaded_params['mtx'], loaded_params['dist']`: the
      file must exist and hold both arrays; 'mtx' is looked up first. */
  function ReadArchive(files: map<string, Archive>, path: string): (r: Result<(Mat3, seq<real>), LoadError>)
    ensures r.Ok? <==> path in files && files[path].mtx.Some? && files[path].dist.Some?
    ensures r.Ok? ==> r.value == (files[path].mtx.value, files[path].dist.value)
    ensures path !in files ==> r == Err(FileNotFound(path))
    ensures path in files && files[path].mtx.None? ==> r == Err(KeyError("mtx"))
    ensures path in files && files[path].mtx.Some? && files[path].dist.None? ==> r == Err(KeyError("dist"))
  {
    if path !in files then Err(FileNotFound(path))
    else
      var archive := files[path];
      if archive.mtx.None? then Err(KeyError("mtx"))
      else if archive.dist.None? then Err(KeyError("dist"))
      else Ok((archive.mtx.value, archive.dist.value))
  }

  class CalibrationStore {
    var mtxLoaded: Option<Mat3>
    var distLoaded: Option<seq<real>>

    /** The module as imported: both globals are `None`. */
    constructor ()
      ensures mtxLoaded == None && distLoaded == None
    {
      mtxLoaded := None;
      distLoaded := None;
    }

    /** Neither global is `None`, so `load_cal_param` will not read the file. */
    predicate Loaded()
      reads this
    {
      mtxLoaded.Some? && distLoaded.Some?
    }

    /** `load_cal_param(cal_param_path, param)`. While either global is `None` it reads
        the archive at `path` and, if both arrays are there, caches them; once both are
        cached it neither reads the file nor looks at `path`. A failed read changes nothing. */
    method LoadCalParam(files: map<string, Archive>, path: string, param: string) returns (r: Result<CalParams, LoadError>)
      modifies this
      ensures old(Loaded()) ==> mtxLoaded == old(mtxLoaded) && distLoaded == old(distLoaded)
      ensures old(Loaded()) ==> r == Ok(SelectParam(param, mtxLoaded.value, distLoaded.value))
      ensures !old(Loaded()) ==> match ReadArchive(files, path)
        case Ok(arrays) =>
          mtxLoaded == Some(arrays.0) && distLoaded == Some(arrays.1) && r == Ok(SelectParam(param, arrays.0, arrays.1))
        case Err(e) =>
          mtxLoaded == old(mtxLoaded) && distLoaded == old(distLoaded) && r == Err(e)
      ensures Loaded() <==> r.Ok?
    {
      if mtxLoaded.None? || distLoaded.None? {
        var read := ReadArchive(files, path);
        if read.Err? {
          return Err(read.error);
        }
        mtxLoaded, distLoaded := Some(read.value.0), Some(read.value.1);
      }
      r := Ok(SelectParam(param, mtxLoaded.value, distLoaded.value));
    }
  }

  /** A fresh process loads from `first`, then asks again naming `later`: once the first
      load succeeded, the second call returns the same value even if `later` names no
      file at all; only a failed first load lets `later` be read. */
  method CacheStability(files: map<string, Archive>, first: string, later: string, param: string)
    returns (r1: Result<CalParams, LoadError>, r2: Result<CalParams, LoadError>)
    ensures r1.Ok? <==> ReadArchive(files, first).Ok?
    ensures r1.Ok? ==> r2 == r1
    ensures r1.Err? ==> (r2.Ok? <==> ReadArchive(files, later).Ok?)
  {
    var store := new CalibrationStore();
    r1 := store.LoadCalParam(files, first, param);
    r2 := store.LoadCalParam(files, later, param);
  }
}
