/** The camera model of `transform_points_coord` (run_measurement.py): pixel keypoints
    are made homogeneous, multiplied by the inverse of the intrinsic matrix and cut back
    to their first two coordinates. */
module Camera {
  import opened Results
  import opened Geometry

  /** One homogeneous row (x, y, w). */
  datatype Vec3 = Vec3(x: real, y: real, z: real)

  /** A 3 x 3 matrix given by its rows; the shape is part of the type. */
  datatype Mat3 = Mat3(r0: Vec3, r1: Vec3, r2: Vec3)

  function Dot(u: Vec3, v: Vec3): real { u.x * v.x + u.y * v.y + u.z * v.z }

  function MatVec(m: Mat3, v: Vec3): Vec3 { Vec3(Dot(m.r0, v), Dot(m.r1, v), Dot(m.r2, v)) }

  function Col0(m: Mat3): Vec3 { Vec3(m.r0.x, m.r1.x, m.r2.x) }
  function Col1(m: Mat3): Vec3 { Vec3(m.r0.y, m.r1.y, m.r2.y) }
  function Col2(m: Mat3): Vec3 { Vec3(m.r0.z, m.r1.z, m.r2.z) }

  function RowTimes(u: Vec3, b: Mat3): Vec3 { Vec3(Dot(u, Col0(b)), Dot(u, Col1(b)), Dot(u, Col2(b))) }

  function MatMul(a: Mat3, b: Mat3): Mat3 { Mat3(RowTimes(a.r0, b), RowTimes(a.r1, b), RowTimes(a.r2, b)) }

  function Identity(): Mat3 { Mat3(Vec3(1.0, 0.0, 0.0), Vec3(0.0, 1.0, 0.0), Vec3(0.0, 0.0, 1.0)) }

  /** An intrinsic (pinhole) camera matrix has the bottom row (0, 0, 1). */
  predicate IsIntrinsic(k: Mat3) { k.r2 == Vec3(0.0, 0.0, 1.0) }

  /** `inv` is what `np.linalg.inv(k)` returns for an invertible `k`. */
  predicate IsInverse(k: Mat3, inv: Mat3) { MatMul(k, inv) == Identity() }

  /** A point with the unit homogeneous coordinate appended. */
  function Homogeneous(p: Point): Vec3 { Vec3(p.x, p.y, 1.0) }

  /** The first two coordinates of a homogeneous row (`[:, :2]` on one row). */
  function FirstTwo(v: Vec3): Point { Point(v.x, v.y) }

  /** `np.hstack((keypoints, np.ones((N, 1))))`: one homogeneous row per keypoint, whose
      third coordinate is 1 and whose first two are the keypoint. */
  function HomogeneousCoords(keypoints: seq<Point>): (h: seq<Vec3>)
    ensures |h| == |keypoints|
    ensures forall i :: 0 <= i < |h| ==> h[i].z == 1.0 && FirstTwo(h[i]) == keypoints[i]
  {
    seq(|keypoints|, i requires 0 <= i < |keypoints| => Homogeneous(keypoints[i]))
  }

  /** The matrix applied to every row on its own; `DotTransposeIsPerRow` shows that
      `np.dot(inv, H.T).T` computes exactly this. */
  function ApplyToRows(inv: Mat3, rows: seq<Vec3>): (r: seq<Vec3>)
    ensures |r| == |rows|
    ensures forall i :: 0 <= i < |r| ==> r[i] == MatVec(inv, rows[i])
  {
    seq(|rows|, i requires 0 <= i < |rows| => MatVec(inv, rows[i]))
  }

  /** `[:, :2]`: every row cut to its first two coordinates. */
  function FirstTwoColumns(rows: seq<Vec3>): (r: seq<Point>)
    ensures |r| == |rows|
    ensures forall i :: 0 <= i < |r| ==> r[i] == FirstTwo(rows[i])
  {
    seq(|rows|, i requires 0 <= i < |rows| => FirstTwo(rows[i]))
  }

  /** A 3 x N array given by its three rows, as `homogeneous_coords.T` is. */
  datatype Wide = Wide(xs: seq<real>, ys: seq<real>, zs: seq<real>)

  predicate WellShaped(w: Wide) { |w.xs| == |w.ys| == |w.zs| }

  /** `.T` of an N x 3 array: its three columns become the rows. */
  function TransposeRows(rows: seq<Vec3>): (w: Wide)
    ensures WellShaped(w) && |w.xs| == |rows|
  {
    Wide(seq(|rows|, k requires 0 <= k < |rows| => rows[k].x),
         seq(|rows|, k requires 0 <= k < |rows| => rows[k].y),
         seq(|rows|, k requires 0 <= k < |rows| => rows[k].z))
  }

  /** `.T` of a 3 x N array: column `k` becomes row `k`. */
  function TransposeBack(w: Wide): (rows: seq<Vec3>)
    requires WellShaped(w)
    ensures |rows| == |w.xs|
  {
    seq(|w.xs|, k requires 0 <= k < |w.xs| => Vec3(w.xs[k], w.ys[k], w.zs[k]))
  }

  /** One row of `np.dot(m, w)`: entry `k` is row `u` of `m` times column `k` of `w`. */
  function RowOfProduct(u: Vec3, w: Wide): (r: seq<real>)
    requires WellShaped(w)
    ensures |r| == |w.xs|
  {
    seq(|w.xs|, k requires 0 <= k < |w.xs| => u.x * w.xs[k] + u.y * w.ys[k] + u.z * w.zs[k])
  }

  /** `np.dot(m, w)` of a 3 x 3 and a 3 x N array. */
  function DotWide(m: Mat3, w: Wide): (r: Wide)
    requires WellShaped(w)
    ensures WellShaped(r) && |r.xs| == |w.xs|
  {
    Wide(RowOfProduct(m.r0, w), RowOfProduct(m.r1, w), RowOfProduct(m.r2, w))
  }

  /** De-projection of a single pixel point: the first two coordinates of `inv * (x, y, 1)`. */
  function Deproject(inv: Mat3, p: Point): Point { FirstTwo(MatVec(inv, Homogeneous(p))) }

  /** Projection of a plane point to pixels by an intrinsic matrix `k`. */
  function Project(k: Mat3, q: Point): Point { FirstTwo(MatVec(k, Homogeneous(q))) }

  /** `transform_points_coord`, with `inv` the inverse of the calibrated camera matrix,
      computed as the source does (stack, transpose, dot, transpose back, slice): exactly
      one de-projected point per keypoint, each computed from its own keypoint. */
  function TransformPointsCoord(inv: Mat3, keypoints: seq<Point>): (r: seq<Point>)
    ensures |r| == |keypoints|
    ensures forall i :: 0 <= i < |r| ==> r[i] == Deproject(inv, keypoints[i])
  {
    var homogeneous := HomogeneousCoords(keypoints);
    DotTransposeIsPerRow(inv, homogeneous);
    FirstTwoColumns(TransposeBack(DotWide(inv, TransposeRows(homogeneous))))
  }

  /** The names bound at the top level of run_measurement.py: the numpy import, the two
      calibration globals and the module's functions. */
  const ModuleGlobals: set<string> := {
    "np", "get_measurements", "mtx_loaded", "dist_loaded", "load_cal_param",
    "transform_points_coord", "scale_coord", "euclidean_distance", "find_midpoint",
    "calculate_circumference", "calculate_body_measurements"}

  /** Reading a name that is neither local nor global. */
  datatype NameError = NameError(name: string)

  /** `transform_points_coord` as written: its first statement passes the global
      `cal_param_path` to `load_cal_param`, so the result is the transform only if the
      module binds that name. */
  function TransformPointsCoordAsWritten(inv: Mat3, keypoints: seq<Point>): (r: Result<seq<Point>, NameError>)
    ensures r.Ok? ==> r.value == TransformPointsCoord(inv, keypoints)
    ensures r.Err? ==> r.error.name !in ModuleGlobals
  {
    if "cal_param_path" in ModuleGlobals then Ok(TransformPointsCoord(inv, keypoints))
    else Err(NameError("cal_param_path"))
  }

  /** No global of that name exists, so every call fails, whatever the keypoints. */
  lemma TransformAsWrittenAlwaysFails(inv: Mat3, keypoints: seq<Point>)
    ensures TransformPointsCoordAsWritten(inv, keypoints) == Err(NameError("cal_param_path"))
  {
  }

  /** `np.dot(inv, H.T).T`, computed on the transposed 3 x N array and transposed back,
      is the matrix applied to every row of `H` on its own. */
  lemma DotTransposeIsPerRow(inv: Mat3, rows: seq<Vec3>)
    ensures TransposeBack(DotWide(inv, TransposeRows(rows))) == ApplyToRows(inv, rows)
  {
    var l, r := TransposeBack(DotWide(inv, TransposeRows(rows))), ApplyToRows(inv, rows);
    forall k | 0 <= k < |rows| ensures l[k] == r[k] {
      var w := TransposeRows(rows);
      assert w.xs[k] == rows[k].x && w.ys[k] == rows[k].y && w.zs[k] == rows[k].z;
    }
  }

  /** The `[:, :2]` slice undoes the `np.hstack` of the column of ones. */
  lemma SliceUndoesHstack(keypoints: seq<Point>)
    ensures FirstTwoColumns(HomogeneousCoords(keypoints)) == keypoints
  {
  }

  /** Applying `b` and then `a` is applying their product. */
  lemma MatVecOfProduct(a: Mat3, b: Mat3, v: Vec3)
    ensures MatVec(a, MatVec(b, v)) == MatVec(MatMul(a, b), v)
  {
    var w := MatVec(b, v);
    assert Dot(a.r0, w) == Dot(RowTimes(a.r0, b), v);
    assert Dot(a.r1, w) == Dot(RowTimes(a.r1, b), v);
    assert Dot(a.r2, w) == Dot(RowTimes(a.r2, b), v);
  }

  /** The inverse of an intrinsic matrix keeps the bottom row (0, 0, 1). */
  lemma InverseOfIntrinsic(k: Mat3, inv: Mat3)
    requires IsIntrinsic(k) && IsInverse(k, inv)
    ensures inv.r2 == Vec3(0.0, 0.0, 1.0)
  {
    assert RowTimes(k.r2, inv) == Identity().r2;
  }

  /** Projecting a de-projected keypoint with the camera matrix gives the keypoint back. */
  lemma ProjectDeproject(k: Mat3, inv: Mat3, p: Point)
    requires IsIntrinsic(k) && IsInverse(k, inv)
    ensures Project(k, Deproject(inv, p)) == p
  {
    InverseOfIntrinsic(k, inv);
    var w := MatVec(inv, Homogeneous(p));
    assert w.z == 1.0;
    assert Homogeneous(Deproject(inv, p)) == w;
    MatVecOfProduct(k, inv, Homogeneous(p));
    assert MatVec(Identity(), Homogeneous(p)) == Homogeneous(p);
  }

  /** The whole transform is undone by projecting every point with the camera matrix. */
  lemma TransformRoundTrip(k: Mat3, inv: Mat3, keypoints: seq<Point>)
    requires IsIntrinsic(k) && IsInverse(k, inv)
    ensures var world := TransformPointsCoord(inv, keypoints);
      forall i :: 0 <= i < |keypoints| ==> Project(k, world[i]) == keypoints[i]
  {
    forall i | 0 <= i < |keypoints|
      ensures Project(k, TransformPointsCoord(inv, keypoints)[i]) == keypoints[i]
    {
      ProjectDeproject(k, inv, keypoints[i]);
    }
  }

  /** With the identity as camera matrix the transform changes nothing. */
  lemma TransformIdentity(keypoints: seq<Point>)
    ensures TransformPointsCoord(Identity(), keypoints) == keypoints
  {
    var r := TransformPointsCoord(Identity(), keypoints);
    forall i | 0 <= i < |keypoints| ensures r[i] == keypoints[i] {
      assert MatVec(Identity(), Homogeneous(keypoints[i])) == Homogeneous(keypoints[i]);
    }
  }
}
