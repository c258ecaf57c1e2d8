# Body measurements from pose keypoints — a Dafny model

The repository estimates a person's body measurements from one photograph:

1. `inference.py` runs a MoveNet pose model on the image and returns, for every keypoint,
   the first two output columns of the network (the score column is dropped).
2. `run_measurement.py` turns those pixels into measurements:
   - it de-projects the keypoints with the inverse of the calibrated camera matrix;
   - it scales them so that the span between keypoints 0 and 1 has a known size;
   - it picks eight joints;
   - it combines their distances into nine body measurements: top, shoulder, chest,
     hand, short hand, hip, neck, thigh and leg.

This project models that pipeline over Dafny `real`s and proves what each step promises.
The modules are:

- `Results`: `Option` and `Result`.
- `Geometry`: points, the squared and Euclidean distance, the midpoint, and the
  circumference. `np.sqrt` and `np.pi` are a `Numerics` value that the model receives.
  `Numerics.Valid()` says that `sqrt` returns the non-negative square root and that
  `pi > 0`.
- `Camera`: homogeneous coordinates and 3 x 3 matrices. It holds
  `transform_points_coord`, with the inverse camera matrix as a parameter.
- `Calibration`: the load-once cache of `load_cal_param`. The two module globals become
  the fields of the class `CalibrationStore`, and the archive on disk becomes a map from
  path to contents.
- `Measurement`: `scale_coord`, the joint selection of `get_measurements`, and
  `calculate_body_measurements`. `Formulas` is a reference definition over the seven
  joint distances, and the implementation is proved equal to it.
- `Inference`: the once-only model load, as the class `ModelCache`. It also holds the
  case-insensitive extension dispatch and the `[..., :2]` slice. The TensorFlow work is
  a function parameter.

The model follows the code as written:

- The hip is half a circumference (run_measurement.py:153).
- The neck is taken from the hip pair (run_measurement.py:156).
- The thigh is computed exactly like the leg (run_measurement.py:159-166).
- Nothing is rounded.
- The inverse is `np.linalg.inv`, not a pseudo-inverse.
- Errors are Python's own exceptions (`IndexError`, `KeyError`, `ValueError`, `NameError`).
  There is no dedicated error for a degenerate scale.

## Model

| member | source | states |
|---|---|---|
| Geometry.SquaredDistance | run_measurement.py:94 | `np.sum((a - b) ** 2)` is never negative; it is zero for equal points and positive for different ones |
| Geometry.EuclideanDistance | run_measurement.py:93-94 | the distance is never negative |
| Geometry.DistanceSquare | run_measurement.py:93-94 | the distance squared is the squared distance, so it is the non-negative root |
| Geometry.SqrtIs | run_measurement.py:94 | the non-negative root is unique: any `r >= 0` with `r * r == v` is `sqrt(v)` |
| Geometry.DistanceSymmetric | run_measurement.py:93-94 | `euclidean_distance(a, b) == euclidean_distance(b, a)` |
| Geometry.DistanceZero | run_measurement.py:93-94 | the distance is 0 if and only if the points are identical |
| Geometry.DistanceTranslate | run_measurement.py:93-94 | shifting both points by one offset keeps their distance |
| Geometry.FindMidpoint | run_measurement.py:98-102 | the midpoint `m` satisfies `m + m == a + b`, is equally far from both ends, and its squared distance to `b` is a quarter of that of `a` and `b` |
| Geometry.MidpointSymmetric | run_measurement.py:98-102 | `find_midpoint(a, b) == find_midpoint(b, a)` |
| Geometry.RadiusIsHalfDistance | run_measurement.py:109-112 | the radius (root of the squared midpoint-to-`b` distance) is half the distance of `a` and `b` |
| Geometry.Circumference | run_measurement.py:106-117 | `2 * pi * radius` equals `pi * euclidean_distance(a, b)` and is non-negative |
| Geometry.CircumferenceSymmetric | run_measurement.py:106-117 | the circumference does not depend on the order of the two points |
| Camera.HomogeneousCoords | run_measurement.py:56-60 | one row per keypoint, whose third coordinate is 1 and whose first two are the keypoint |
| Camera.DotTransposeIsPerRow | run_measurement.py:63-70 | `np.dot(inv, H.T).T`, computed on the transposed 3 x N array and transposed back, is the matrix applied to every row of `H` by itself |
| Camera.SliceUndoesHstack | run_measurement.py:59-73 | the `[:, :2]` slice gives back exactly the keypoints that `np.hstack` extended with the column of ones |
| Camera.TransformPointsCoord | run_measurement.py:51-75 | computed by stacking, transposing, `np.dot`, transposing back and slicing: exactly one output point per keypoint, the first two components of `inv * (x, y, 1)` for that keypoint |
| Camera.MatVecOfProduct | run_measurement.py:66-67 | applying `b` and then `a` is applying `a * b` |
| Camera.InverseOfIntrinsic | run_measurement.py:67 | the inverse of a camera matrix with bottom row (0, 0, 1) keeps that bottom row |
| Camera.ProjectDeproject | run_measurement.py:56-73 | projecting a de-projected keypoint with the camera matrix gives the keypoint back |
| Camera.TransformRoundTrip | run_measurement.py:51-75 | projecting every output point with the camera matrix gives back every input keypoint |
| Camera.TransformIdentity | run_measurement.py:51-75 | with the identity matrix the transform returns its input |
| Camera.TransformPointsCoordAsWritten | run_measurement.py:51-53 | as written, the result is the transform only if `cal_param_path` is a module global, and otherwise a `NameError` for a name the module does not bind |
| Camera.TransformAsWrittenAlwaysFails | run_measurement.py:53 | every call as written raises `NameError('cal_param_path')`, whatever the keypoints |
| Calibration.SelectParam | run_measurement.py:43-48 | `'mtx'` returns exactly the matrix, `'dist'` exactly the coefficients, any other value the pair |
| Calibration.ReadArchive | run_measurement.py:40-41 | the read succeeds if and only if the file exists and holds both arrays; otherwise the error is the missing file, then the missing `'mtx'` key, then the missing `'dist'` key |
| Calibration.CalibrationStore.constructor | run_measurement.py:33-34 | both globals start as `None` |
| Calibration.CalibrationStore.LoadCalParam | run_measurement.py:37-48 | once both globals are set, neither the state nor the path matters: the cached values are served; before that, a successful read fills both globals and a failed one changes nothing; afterwards the cache is full exactly when the call succeeded |
| Calibration.CacheStability | run_measurement.py:37-48 | after a successful first load, a second call with any path returns the same value; only after a failed first load does the second path get read |
| Measurement.ScaleCoord | run_measurement.py:78-89 | fewer than two points raise `IndexError`; otherwise the point count is kept and every point is multiplied per axis by `known / abs(p1 - p0)` |
| Measurement.AxisSpan | run_measurement.py:81-87 | on one axis, a non-zero difference scaled by `known / abs(difference)` has absolute value `abs(known)` |
| Measurement.ScaleReference | run_measurement.py:81-87 | after scaling, the reference span `abs(sc[1] - sc[0])` is `abs(known)` on both axes |
| Measurement.ScaleIdempotent | run_measurement.py:78-89 | scaling already-scaled coordinates with the same positive size returns them unchanged |
| Measurement.SelectJoints | run_measurement.py:7-17 | the joints are the rows 5, 6, 7, 9, 11, 12, 13 and 15; an `IndexError` occurs exactly when there are fewer than 16 rows |
| Measurement.FormulasRelations | run_measurement.py:138-166 | chest is pi times the shoulder span, short is half the hand, `3 * hip == pi * neck`, thigh equals leg |
| Measurement.FormulasNonNegative | run_measurement.py:129-166 | non-negative distances and a positive pi give nine non-negative values |
| Measurement.BodyMeasurements | run_measurement.py:129-166 | the formula set as written, with chest `/ 2 * 2`, equals the reference formulas: top `d(LS,LH) + d(LH,LK)/2`, shoulder `d(LS,RS)`, chest `pi d(LS,RS)`, hand `d(LS,LE) + d(LE,LW)`, short hand/2, hip `pi d(LH,RH)/2`, neck `3 d(LH,RH)/2`, thigh = leg `d(LH,LK) + d(LK,LA)` |
| Measurement.CircumferenceMeasurements | run_measurement.py:138-139 | the chest is `calculate_circumference(RS, LS)` and the hip is `calculate_circumference(LH, RH) / 2` |
| Measurement.MeasurementsNonNegative | run_measurement.py:129-166 | all nine measurements are non-negative |
| Measurement.MeasurementsTranslationInvariant | run_measurement.py:129-166 | moving every joint by one offset changes no measurement |
| Measurement.ExampleSpans | run_measurement.py:129-166 | on the worked-example pose the seven joint distances are 3, 3, 2, 1, 1, 2, 3 |
| Measurement.WorkedExample | run_measurement.py:129-166 | on that pose the measurements are top 4.5, shoulder 2, chest 2 pi, hand 2, short 1, hip pi, neck 3, thigh 6, leg 6 |
| Measurement.CalculateBodyMeasurements | run_measurement.py:120-170 | the function returns only (top, shoulder, chest) of the nine values; the shoulder is the shoulder distance, and all three are non-negative |
| Measurement.ReturnedChest | run_measurement.py:135-139 | the returned chest is pi times the returned shoulder |
| Measurement.ShoulderAndChest | run_measurement.py:135-139 | the shoulder is the shoulder distance and the chest is pi times it |
| Measurement.LongerArmSpans | run_measurement.py:142-147 | moving the wrist one unit away from the elbow changes only the elbow-to-wrist distance, to 2 |
| Measurement.ReturnedTripleLosesHand | run_measurement.py:168-170 | two poses whose hand measurements differ (2 and 3) return the same triple |
| Measurement.GetMeasurements | run_measurement.py:4-29 | composed with the corrected transform: the call succeeds (returning `None`) if and only if there are at least 16 keypoints; a single keypoint raises `ValueError` in `np.hstack`, and every other count below 16 raises `IndexError` |
| Inference.ModelCache.constructor | inference.py:5 | no model is loaded at import |
| Inference.ModelCache.LoadModel | inference.py:8-12 | the model at the URL is loaded only when none is loaded; a loaded model is never replaced; afterwards a model is loaded |
| Inference.FirstModelKept | inference.py:8-12 | after loads from `first` and then `later`, the model is the one at `first` |
| Inference.LowerChar | inference.py:36 | ASCII upper-case letters map to lower case, every other character is kept, and the result is never upper case |
| Inference.Lower | inference.py:36-38 | lowering keeps the length and lowers every character |
| Inference.LowerIdempotent | inference.py:36-38 | lowering twice is lowering once |
| Inference.LowerAppend | inference.py:36-38 | lowering distributes over concatenation |
| Inference.SelectDecoder | inference.py:31-45 | a non-path raises "Unsupported input type"; a path selects PNG if and only if its lowered form ends in ".png", JPEG if and only if it ends in ".jpeg" or ".jpg", and the unsupported-format `ValueError` if and only if it ends in none of them |
| Inference.ExtensionsExclusive | inference.py:36-39 | no name ends in both ".png" and ".jpeg" or ".jpg", so the order of the tests does not matter |
| Inference.SelectDecoderIgnoresCase | inference.py:36-39 | two paths that agree once lowered get the same decoder or error |
| Inference.SelectDecoderOfLowered | inference.py:36-39 | a path and its lower-case form get the same decoder or error |
| Inference.UpperCaseJpeg | inference.py:38-39 | any name ending in ".JPG" is decoded as JPEG |
| Inference.MixedCasePng | inference.py:36-37 | any name ending in ".Png" is decoded as PNG |
| Inference.LastExtensionCounts | inference.py:36-37 | only the final extension counts: a name ending in ".jpg.Png" is PNG |
| Inference.GifUnsupported | inference.py:40-42 | a name ending in ".gif" raises the unsupported-format `ValueError` |
| Inference.ExtensionNeedsDot | inference.py:36-42 | a name "png" without a dot raises the unsupported-format `ValueError` |
| Inference.KeypointsXY | inference.py:57 | `[..., :2]` keeps the number of keypoints; every row keeps its first `min(2, length)` entries and nothing else |
| Inference.KeypointsXYDropsScore | inference.py:54-60 | a row of (y, x, score) is cut to its two coordinates |
| Inference.KeypointsXYIdempotent | inference.py:57 | slicing a sliced output changes nothing |
| Inference.ModelCache.PreprocessAndPredict | inference.py:15-60 | the model is loaded first, whether or not the input is accepted; a rejected input returns its `ValueError`; an accepted path returns the loaded model's output for the chosen decoder, cut to two coordinates |
| Inference.SecondPredictionUsesFirstModel | inference.py:8-12 | a second prediction in the same process uses the model of the first call's URL, so it returns what the first returned |

## Left out

- Reading files is not modelled: `np.load` (run_measurement.py:40) and `tf.io.read_file` (inference.py:33) are I/O.
  - The calibration archive is a map from path to contents.
  - A missing image file, which TensorFlow reports before the extension check, is not modelled.
- `np.linalg.inv` is not computed. The inverse is a parameter, and `IsInverse` is the relation the round-trip lemmas assume. A singular matrix's failure is numpy's behaviour.
- `np.squeeze` is not modelled in general. The keypoints are a sequence of N points. A single keypoint squeezed to shape (2,) is not modelled.
- Floating point is not modelled: rounding, inf and NaN are absent.
  - A zero reference extent, which divides by zero in numpy, is excluded by the precondition `SpanNonDegenerate` of `Measurement.ScaleCoord` and `Measurement.GetMeasurements`.
- The exact values of `np.pi` and `np.sqrt` are not modelled. They are parameters that are only required to be positive and the non-negative square root.
- Measurement.GetMeasurements: composes the corrected transform `Camera.TransformPointsCoord`. As written, every call raises `NameError` at run_measurement.py:53 (see Findings) before any of the outcomes it states.
- Measurement.BodyMeasurements: how the measurements change when the whole pose is scaled is not stated. The nonlinear arithmetic for that proof is beyond what the solver finishes in reasonable time. Translation invariance is stated.
- Inference.Lower: models `str.lower()` for ASCII letters only. Python also lowers non-ASCII letters, but none of those lowers to a character of ".png", ".jpeg" or ".jpg".
- The TensorFlow work is not modelled: `hub.load`, decoding, `resize_with_pad` to 256 x 256, the cast and the network run.
  - `Model` records only the URL of the loaded signature.
  - Running the model on a decoded image is the `predict` parameter of `Inference.ModelCache.PreprocessAndPredict`.
- The output shape (1, 1, 17, 3) of the network is not modelled. It is a sequence of rows, and the slice acts on the last axis.
- The order of the output coordinates is not modelled. MoveNet emits (y, x, score), and the slice keeps whatever the first two columns are.
- Concurrency is not modelled. The module-global caches of both files are unguarded against concurrent calls; the model is sequential.
- The docstring of `preprocess_and_predict` (inference.py:20) admits a `tf.Tensor` image, but lines 43-45 reject every input that is not a `str`. The model follows the code, and the intended tensor path is not modelled.
- main.py is not part of this model. It is an HTTP route that calls names the repository does not define.

## Findings

| source | as written | input that shows it | evidently intended | confidence | as-written member | corrected member |
|---|---|---|---|---|---|---|
| run_measurement.py:53 | `load_cal_param(cal_param_path, param='mtx')` reads a name that is neither a parameter nor a module global, so every call raises `NameError` | any keypoints, e.g. the empty array | the camera matrix is loaded from a calibration path the caller supplies | not executed | Camera.TransformPointsCoordAsWritten, Camera.TransformAsWrittenAlwaysFails | Camera.TransformPointsCoord |
| run_measurement.py:168-170 | the trailing comma ends the `return` statement, so only (top, shoulder, chest) is returned; the other six values on lines 169-170 are dead expression statements | the example pose and the same pose with the wrist at (0, 3) instead of (0, 2): the returned triples are equal, but the hand measurements are 2 and 3 | all nine measurements are returned | not executed | Measurement.CalculateBodyMeasurements, Measurement.ReturnedTripleLosesHand | Measurement.BodyMeasurements |
