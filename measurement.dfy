/** The measurement pipeline of run_measurement.py: reference scaling of de-projected
    coordinates (`scale_coord`), the fixed joint selection of `get_measurements`, and the
    formula set of `calculate_body_measurements`. */
module Measurement {
  import opened Results
  import opened Geometry
  import opened Camera

  /** The default of `scale_coord`'s `known_square_size`. */
  const DefaultKnownSquareSize: real := 4.0

  /** The reference size `get_measurements` passes to `scale_coord`. */
  const ReferenceSquareSize: real := 1.5

  /** Indexing a coordinate array past its end, or `np.hstack` joining arrays of
      different rank. */
  datatype MeasureError = IndexError | ValueError

  function Abs(v: real): real { if v < 0.0 then -v else v }

  /** `np.abs(coords[1] - coords[0])`: the reference span, one length per axis. */
  function MeasuredSquareSize(coords: seq<Point>): Point
    requires 2 <= |coords|
  {
    Point(Abs(coords[1].x - coords[0].x), Abs(coords[1].y - coords[0].y))
  }

  /** The reference span has a non-zero extent on both axes; `scale_coord` has no guard
      for a zero extent (numpy would divide by zero). */
  predicate SpanNonDegenerate(coords: seq<Point>)
  {
    2 <= |coords| ==> coords[1].x != coords[0].x && coords[1].y != coords[0].y
  }

  /** Component-wise product of a point with a per-axis factor. */
  function ScaleAxes(p: Point, f: Point): Point { Point(p.x * f.x, p.y * f.y) }

  /** `scale_coord`: every point is multiplied, axis by axis, by
      `known_square_size / np.abs(coords[1] - coords[0])`. Fewer than two points raise
      `IndexError`. */
  function ScaleCoord(coords: seq<Point>, known: real := DefaultKnownSquareSize): (r: Result<seq<Point>, MeasureError>)
    requires SpanNonDegenerate(coords)
    ensures r.Ok? <==> 2 <= |coords|
    ensures r.Err? ==> r.error == IndexError
    ensures r.Ok? ==> |r.value| == |coords|
    ensures r.Ok? ==> forall i :: 0 <= i < |coords| ==>
      r.value[i] == ScaleAxes(coords[i], Point(known / MeasuredSquareSize(coords).x, known / MeasuredSquareSize(coords).y))
  {
    if |coords| < 2 then Err(IndexError)
    else
      var measured := MeasuredSquareSize(coords);
      var factor := Point(known / measured.x, known / measured.y);
      Ok(seq(|coords|, i requires 0 <= i < |coords| => ScaleAxes(coords[i], factor)))
  }

  /** One axis of the reference property: a difference `d != 0` scaled by `k / |d|` has
      absolute value `|k|`. */
  lemma AxisSpan(c0: real, c1: real, k: real)
    requires c1 != c0
    ensures Abs(c1 * (k / Abs(c1 - c0)) - c0 * (k / Abs(c1 - c0))) == Abs(k)
  {
    var f := k / Abs(c1 - c0);
    assert c1 * f - c0 * f == (c1 - c0) * f;
    if c1 - c0 < 0.0 {
      assert (c1 - c0) * f == -k;
    } else {
      assert (c1 - c0) * f == k;
    }
  }

  /** After scaling, the reference span measures `|known|` on each axis: with a positive
      `known_square_size`, points 0 and 1 are exactly that far apart per axis. */
  lemma ScaleReference(coords: seq<Point>, known: real)
    requires 2 <= |coords| && SpanNonDegenerate(coords)
    ensures var sc := ScaleCoord(coords, known).value;
      Abs(sc[1].x - sc[0].x) == Abs(known) && Abs(sc[1].y - sc[0].y) == Abs(known)
  {
    AxisSpan(coords[0].x, coords[1].x, known);
    AxisSpan(coords[0].y, coords[1].y, known);
  }

  /** Scaling already-scaled coordinates again with the same positive size changes
      nothing: the second reference span is `known` per axis, so every factor is 1. */
  lemma ScaleIdempotent(coords: seq<Point>, known: real)
    requires 2 <= |coords| && SpanNonDegenerate(coords) && 0.0 < known
    ensures var sc := ScaleCoord(coords, known).value;
      SpanNonDegenerate(sc) && ScaleCoord(sc, known) == Ok(sc)
  {
    var sc := ScaleCoord(coords, known).value;
    ScaleReference(coords, known);
    var measured := MeasuredSquareSize(sc);
    assert measured == Point(known, known);
    var factor := Point(known / measured.x, known / measured.y);
    assert factor == Point(1.0, 1.0) by { DivSelf(known); }
    var again := ScaleCoord(sc, known).value;
    forall i | 0 <= i < |sc| ensures again[i] == sc[i] {
      assert again[i] == ScaleAxes(sc[i], factor);
    }
    assert again == sc;
  }

  lemma DivSelf(k: real)
    requires k != 0.0
    ensures k / k == 1.0
  {
  }

  /** The eight joints `get_measurements` reads (the COCO keypoint order of the pose
      model); indices 8, 10, 14 and 16 are not used. */
  datatype Joints = Joints(
    leftShoulder: Point, rightShoulder: Point, leftElbow: Point, leftWrist: Point,
    leftHip: Point, rightHip: Point, leftKnee: Point, leftAnkle: Point)

  const LeftShoulder: nat := 5
  const RightShoulder: nat := 6
  const LeftElbow: nat := 7
  const LeftWrist: nat := 9
  const LeftHip: nat := 11
  const RightHip: nat := 12
  const LeftKnee: nat := 13
  const LeftAnkle: nat := 15

  /** `sc[5]`, `sc[6]`, ... `sc[15]` in `get_measurements`: the joints at their fixed
      indices, or `IndexError` when the array has fewer than 16 rows. */
  function SelectJoints(sc: seq<Point>): (r: Result<Joints, MeasureError>)
    ensures r.Ok? <==> 16 <= |sc|
    ensures r.Err? ==> r.error == IndexError
    ensures r.Ok? ==>
      r.value.leftShoulder == sc[5] && r.value.rightShoulder == sc[6] &&
      r.value.leftElbow == sc[7] && r.value.leftWrist == sc[9] &&
      r.value.leftHip == sc[11] && r.value.rightHip == sc[12] &&
      r.value.leftKnee == sc[13] && r.value.leftAnkle == sc[15]
  {
    if |sc| <= LeftAnkle then Err(IndexError)
    else Ok(Joints(sc[LeftShoulder], sc[RightShoulder], sc[LeftElbow], sc[LeftWrist],
                   sc[LeftHip], sc[RightHip], sc[LeftKnee], sc[LeftAnkle]))
  }

  /** The nine values `calculate_body_measurements` computes. */
  datatype Measurements = Measurements(
    top: real, shoulder: real, chest: real, hand: real, short: real,
    hip: real, neck: real, thigh: real, leg: real)

  /** The seven joint-to-joint distances the formulas use. */
  datatype Spans = Spans(
    shoulderHip: real, hipKnee: real, shoulders: real, shoulderElbow: real,
    elbowWrist: real, hips: real, kneeAnkle: real)

  function JointSpans(m: Numerics, j: Joints): Spans
    requires m.Valid()
  {
    Spans(EuclideanDistance(m, j.leftShoulder, j.leftHip), EuclideanDistance(m, j.leftHip, j.leftKnee),
          EuclideanDistance(m, j.leftShoulder, j.rightShoulder), EuclideanDistance(m, j.leftShoulder, j.leftElbow),
          EuclideanDistance(m, j.leftElbow, j.leftWrist), EuclideanDistance(m, j.leftHip, j.rightHip),
          EuclideanDistance(m, j.leftKnee, j.leftAnkle))
  }

  /** The formula set read off the source with every circumference taken as pi times
      its diameter: the reference the implementation below is checked against. */
  function Formulas(pi: real, d: Spans): Measurements
  {
    var hand := d.shoulderElbow + d.elbowWrist;
    var leg := d.hipKnee + d.kneeAnkle;
    Measurements(d.shoulderHip + d.hipKnee / 2.0, d.shoulders, pi * d.shoulders, hand, hand / 2.0,
                 pi * d.hips / 2.0, 3.0 * d.hips / 2.0, leg, leg)
  }

  /** The relations between the nine values that hold whatever the spans: the chest is
      the circle whose diameter is the shoulder span, the short hand is half the hand,
      the hip and the neck are both read off the hip span (so `3 * hip == pi * neck`),
      and the thigh equals the leg. */
  lemma FormulasRelations(pi: real, d: Spans)
    ensures var r := Formulas(pi, d);
      r.chest == pi * r.shoulder && r.short == r.hand / 2.0 &&
      3.0 * r.hip == pi * r.neck && r.thigh == r.leg
  {
    var r := Formulas(pi, d);
    assert 3.0 * (pi * d.hips / 2.0) == pi * (3.0 * d.hips / 2.0) by {
      MulSwap(3.0, pi, d.hips);
    }
  }

  /** `a * (b * c) == b * (a * c)`. */
  lemma MulSwap(a: real, b: real, c: real)
    ensures a * (b * c) == b * (a * c)
  {
  }

  /** Non-negative spans and a positive pi give nine non-negative values. */
  lemma FormulasNonNegative(pi: real, d: Spans)
    requires 0.0 < pi
    requires 0.0 <= d.shoulderHip && 0.0 <= d.hipKnee && 0.0 <= d.shoulders && 0.0 <= d.shoulderElbow
    requires 0.0 <= d.elbowWrist && 0.0 <= d.hips && 0.0 <= d.kneeAnkle
    ensures var r := Formulas(pi, d);
      0.0 <= r.top && 0.0 <= r.shoulder && 0.0 <= r.chest && 0.0 <= r.hand && 0.0 <= r.short &&
      0.0 <= r.hip && 0.0 <= r.neck && 0.0 <= r.thigh && 0.0 <= r.leg
  {
    ProductNonNegative(pi, d.shoulders, pi * d.shoulders);
    ProductNonNegative(pi, d.hips, pi * d.hips);
  }

  lemma ProductNonNegative(a: real, b: real, c: real)
    requires 0.0 <= a && 0.0 <= b && c == a * b
    ensures 0.0 <= c
  {
    if 0.0 < a && 0.0 < b {
      ProductPositive(a, b, c);
    }
  }

  /** The formula set of `calculate_body_measurements`, as written: no rounding, the
      chest circumference divided and multiplied by 2, the hip circumference halved, the
      neck taken from the hip pair, the thigh computed exactly like the leg. Every value
      agrees with the reference formulas on the seven joint distances. */
  function BodyMeasurements(m: Numerics, j: Joints): (r: Measurements)
    requires m.Valid()
    ensures r == Formulas(m.pi, JointSpans(m, j))
  {
    var shoulderHip := EuclideanDistance(m, j.leftShoulder, j.leftHip);
    var hipKnee := EuclideanDistance(m, j.leftHip, j.leftKnee) / 2.0;
    var top := shoulderHip + hipKnee;
    var shoulder := EuclideanDistance(m, j.rightShoulder, j.leftShoulder);
    var chest := Circumference(m, j.rightShoulder, j.leftShoulder) / 2.0 * 2.0;
    var hand := EuclideanDistance(m, j.leftShoulder, j.leftElbow) + EuclideanDistance(m, j.leftElbow, j.leftWrist);
    var short := hand / 2.0;
    var hip := Circumference(m, j.leftHip, j.rightHip) / 2.0;
    var neck := EuclideanDistance(m, j.leftHip, j.rightHip) / 2.0 * 3.0;
    var thigh := EuclideanDistance(m, j.leftHip, j.leftKnee) + EuclideanDistance(m, j.leftKnee, j.leftAnkle);
    var leg := EuclideanDistance(m, j.leftHip, j.leftKnee) + EuclideanDistance(m, j.leftKnee, j.leftAnkle);
    DistanceSymmetric(m, j.rightShoulder, j.leftShoulder);
    ProductOfEqual(m.pi, EuclideanDistance(m, j.rightShoulder, j.leftShoulder),
                   EuclideanDistance(m, j.leftShoulder, j.rightShoulder));
    Measurements(top, shoulder, chest, hand, short, hip, neck, thigh, leg)
  }

  /** The chest is the shoulder circumference (divided by 2 and multiplied by 2 again)
      and the hip is half the hip circumference. */
  lemma CircumferenceMeasurements(m: Numerics, j: Joints)
    requires m.Valid()
    ensures BodyMeasurements(m, j).chest == Circumference(m, j.rightShoulder, j.leftShoulder)
    ensures BodyMeasurements(m, j).hip == Circumference(m, j.leftHip, j.rightHip) / 2.0
  {
  }

  /** Every measurement is non-negative. */
  lemma MeasurementsNonNegative(m: Numerics, j: Joints)
    requires m.Valid()
    ensures var r := BodyMeasurements(m, j);
      0.0 <= r.top && 0.0 <= r.shoulder && 0.0 <= r.chest && 0.0 <= r.hand && 0.0 <= r.short &&
      0.0 <= r.hip && 0.0 <= r.neck && 0.0 <= r.thigh && 0.0 <= r.leg
  {
    FormulasNonNegative(m.pi, JointSpans(m, j));
  }

  lemma ProductOfEqual(p: real, a: real, b: real)
    requires a == b
    ensures p * a == p * b
  {
  }

  /** Every joint moved by the same offset. */
  function ShiftJoints(j: Joints, t: Point): Joints
  {
    Joints(Add(j.leftShoulder, t), Add(j.rightShoulder, t), Add(j.leftElbow, t), Add(j.leftWrist, t),
           Add(j.leftHip, t), Add(j.rightHip, t), Add(j.leftKnee, t), Add(j.leftAnkle, t))
  }

  /** The measurements depend only on where the joints are relative to one another. */
  lemma MeasurementsTranslationInvariant(m: Numerics, j: Joints, t: Point)
    requires m.Valid()
    ensures BodyMeasurements(m, ShiftJoints(j, t)) == BodyMeasurements(m, j)
  {
    DistanceTranslate(m, j.leftShoulder, j.leftHip, t);
    DistanceTranslate(m, j.leftHip, j.leftKnee, t);
    DistanceTranslate(m, j.leftShoulder, j.rightShoulder, t);
    DistanceTranslate(m, j.leftShoulder, j.leftElbow, t);
    DistanceTranslate(m, j.leftElbow, j.leftWrist, t);
    DistanceTranslate(m, j.leftHip, j.rightHip, t);
    DistanceTranslate(m, j.leftKnee, j.leftAnkle, t);
    assert JointSpans(m, ShiftJoints(j, t)) == JointSpans(m, j);
  }

  /** The point `(dx, dy)` away from `o`. */
  function At(o: Point, dx: real, dy: real): Point { Point(o.x + dx, o.y + dy) }

  /** The worked-example pose, placed anywhere in the image (y grows downwards):
      relative to `o`, shoulders at (0, 0) and (2, 0), elbow (0, 1), wrist
      (0, 2), hips (0, 3) and (2, 3), knee (0, 6), ankle (0, 9). */
  function ExamplePose(o: Point): Joints
  {
    Joints(At(o, 0.0, 0.0), At(o, 2.0, 0.0), At(o, 0.0, 1.0), At(o, 0.0, 2.0),
           At(o, 0.0, 3.0), At(o, 2.0, 3.0), At(o, 0.0, 6.0), At(o, 0.0, 9.0))
  }

  /** Two points on a line parallel to an axis are as far apart as their coordinates
      differ along it. */
  lemma AxisDistance(m: Numerics, a: Point, b: Point, d: real)
    requires m.Valid() && 0.0 <= d
    requires (a.x == b.x && Abs(a.y - b.y) == d) || (a.y == b.y && Abs(a.x - b.x) == d)
    ensures EuclideanDistance(m, a, b) == d
  {
    if a.x == b.x && Abs(a.y - b.y) == d {
      assert Square(a.x - b.x) == 0.0;
      assert Square(a.y - b.y) == Square(d) by {
        if a.y - b.y < 0.0 { assert a.y - b.y == -d; }
      }
    } else {
      assert Square(a.y - b.y) == 0.0;
      assert Square(a.x - b.x) == Square(d) by {
        if a.x - b.x < 0.0 { assert a.x - b.x == -d; }
      }
    }
    SqrtIs(m, SquaredDistance(a, b), d);
  }

  /** The seven distances of the example pose. */
  lemma ExampleSpans(m: Numerics, o: Point)
    requires m.Valid()
    ensures JointSpans(m, ExamplePose(o)) == Spans(3.0, 3.0, 2.0, 1.0, 1.0, 2.0, 3.0)
  {
    var p := ExamplePose(o);
    AxisDistance(m, p.leftShoulder, p.leftHip, 3.0);
    AxisDistance(m, p.leftHip, p.leftKnee, 3.0);
    AxisDistance(m, p.leftShoulder, p.rightShoulder, 2.0);
    AxisDistance(m, p.leftShoulder, p.leftElbow, 1.0);
    AxisDistance(m, p.leftElbow, p.leftWrist, 1.0);
    AxisDistance(m, p.leftHip, p.rightHip, 2.0);
    AxisDistance(m, p.leftKnee, p.leftAnkle, 3.0);
  }

  /** On the example pose: top 4.5, shoulder 2, chest 2 pi, hand 2, short 1, hip pi,
      neck 3, thigh and leg 6. */
  lemma WorkedExample(m: Numerics, o: Point)
    requires m.Valid()
    ensures BodyMeasurements(m, ExamplePose(o)) == Measurements(4.5, 2.0, 2.0 * m.pi, 2.0, 1.0, m.pi, 3.0, 6.0, 6.0)
  {
    ExampleSpans(m, o);
    ExampleFormulas(m.pi);
  }

  lemma ExampleFormulas(pi: real)
    ensures Formulas(pi, Spans(3.0, 3.0, 2.0, 1.0, 1.0, 2.0, 3.0)) == Measurements(4.5, 2.0, 2.0 * pi, 2.0, 1.0, pi, 3.0, 6.0, 6.0)
  {
  }

  /** `calculate_body_measurements(left_shoulder, right_shoulder, left_hip, right_hip,
      left_knee, left_elbow, left_wrist, left_ankle)`. The trailing comma after its
      `return` line makes it return only (top, shoulder, chest); the chest is the
      circumference of the circle whose diameter is the shoulder span. */
  function CalculateBodyMeasurements(
    m: Numerics, leftShoulder: Point, rightShoulder: Point, leftHip: Point, rightHip: Point,
    leftKnee: Point, leftElbow: Point, leftWrist: Point, leftAnkle: Point): (r: (real, real, real))
    requires m.Valid()
    ensures var all := BodyMeasurements(m, Joints(leftShoulder, rightShoulder, leftElbow, leftWrist,
                                                   leftHip, rightHip, leftKnee, leftAnkle));
      r == (all.top, all.shoulder, all.chest)
    ensures r.1 == EuclideanDistance(m, leftShoulder, rightShoulder)
    ensures 0.0 <= r.0 && 0.0 <= r.1 && 0.0 <= r.2
  {
    var j := Joints(leftShoulder, rightShoulder, leftElbow, leftWrist, leftHip, rightHip, leftKnee, leftAnkle);
    var all := BodyMeasurements(m, j);
    ShoulderAndChest(m, j);
    MeasurementsNonNegative(m, j);
    (all.top, all.shoulder, all.chest)
  }

  /** The returned chest is pi times the returned shoulder span. */
  lemma ReturnedChest(m: Numerics, j: Joints)
    requires m.Valid()
    ensures var r := CalculateBodyMeasurements(m, j.leftShoulder, j.rightShoulder, j.leftHip, j.rightHip,
                                               j.leftKnee, j.leftElbow, j.leftWrist, j.leftAnkle);
      r.2 == m.pi * r.1
  {
    ShoulderAndChest(m, j);
  }

  /** The shoulder is the distance between the shoulders and the chest is pi times it. */
  lemma ShoulderAndChest(m: Numerics, j: Joints)
    requires m.Valid()
    ensures var all := BodyMeasurements(m, j);
      all.shoulder == EuclideanDistance(m, j.leftShoulder, j.rightShoulder) &&
      all.chest == m.pi * EuclideanDistance(m, j.leftShoulder, j.rightShoulder)
  {
  }

  /** The example pose with the wrist one unit further from the elbow. */
  function LongerArmPose(o: Point): Joints
  {
    ExamplePose(o).(leftWrist := At(o, 0.0, 3.0))
  }

  lemma LongerArmSpans(m: Numerics, o: Point)
    requires m.Valid()
    ensures JointSpans(m, LongerArmPose(o)) == Spans(3.0, 3.0, 2.0, 1.0, 2.0, 2.0, 3.0)
  {
    var q := LongerArmPose(o);
    ExampleSpans(m, o);
    AxisDistance(m, q.leftElbow, q.leftWrist, 2.0);
  }

  /** The returned triple cannot tell the two poses apart although their hand
      measurements differ (2 and 3): the six values after the chest are lost. */
  lemma ReturnedTripleLosesHand(m: Numerics, o: Point)
    requires m.Valid()
    ensures var p, q := ExamplePose(o), LongerArmPose(o);
      CalculateBodyMeasurements(m, p.leftShoulder, p.rightShoulder, p.leftHip, p.rightHip,
                                p.leftKnee, p.leftElbow, p.leftWrist, p.leftAnkle) ==
      CalculateBodyMeasurements(m, q.leftShoulder, q.rightShoulder, q.leftHip, q.rightHip,
                                q.leftKnee, q.leftElbow, q.leftWrist, q.leftAnkle)
    ensures BodyMeasurements(m, ExamplePose(o)).hand == 2.0
    ensures BodyMeasurements(m, LongerArmPose(o)).hand == 3.0
  {
    ExampleSpans(m, o);
    LongerArmSpans(m, o);
  }

  /** `get_measurements`, composed with the corrected `transform_points_coord` (the one
      that receives the camera matrix instead of reading the unbound `cal_param_path`):
      de-project, scale with the 1.5 reference, pick the joints, compute the measurements
      and discard them; the function returns `None`. A single keypoint is squeezed to a
      vector of shape (2,), which `np.hstack` cannot join with the (2, 1) column of ones,
      so it raises `ValueError`; otherwise fewer than 16 keypoints raise `IndexError`. */
  function GetMeasurements(m: Numerics, inv: Mat3, keypoints: seq<Point>): (r: Result<(), MeasureError>)
    requires m.Valid()
    requires SpanNonDegenerate(TransformPointsCoord(inv, keypoints))
    ensures r.Ok? <==> 16 <= |keypoints|
    ensures r == Err(ValueError) <==> |keypoints| == 1
    ensures r == Err(IndexError) <==> |keypoints| < 16 && |keypoints| != 1
  {
    if |keypoints| == 1 then Err(ValueError)
    else
      var realWorld := TransformPointsCoord(inv, keypoints);
      match ScaleCoord(realWorld, ReferenceSquareSize)
      case Err(e) => Err(e)
      case Ok(sc) =>
        match SelectJoints(sc)
        case Err(e) => Err(e)
        case Ok(j) =>
          var discarded := BodyMeasurements(m, j);
          Ok(())
  }
}
