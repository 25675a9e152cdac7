/** Lip geometry of the face detector: the fixed lip index tables, the
    detection scale factor, contour extraction, the closed-mouth test, the
    tilt estimate and the decisions `get_lip_mask` takes before handing the
    polygons to the rasteriser.  Rasterisation, morphology, blurring and
    rotation are OpenCV internals and appear only as parameters. */
module FaceDetection {
  import opened Basics

  /** A landmark as the mesh model reports it: coordinates normalised to the image. */
  datatype Landmark = Landmark(x: real, y: real)

  /** A pixel position. */
  datatype Point = Point(x: int, y: int)

  /** Outer lip contour, clockwise from the centre of the upper lip. */
  const OuterLipIndices: seq<nat> :=
    [0, 267, 269, 270, 409, 291, 375, 321, 405, 314, 17, 84, 181, 91, 146, 61, 185, 40, 39, 37]

  /** Inner lip contour, clockwise. */
  const InnerLipIndices: seq<nat> :=
    [78, 191, 80, 81, 82, 13, 312, 311, 310, 415, 308, 324, 318, 402, 317, 14, 87, 178, 88, 95]

  /** The part of a `FaceDetector`'s state that `get_lip_mask` reads: the
      outer and inner lip index tables. */
  datatype Detector = Detector(outerLipPoints: seq<nat>, innerLipPoints: seq<nat>)

  /** A detector holding the tables its constructor installs. */
  predicate Standard(det: Detector) {
    det.outerLipPoints == OuterLipIndices && det.innerLipPoints == InnerLipIndices
  }

  /** The longer image side above which detection runs on a downscaled copy. */
  const DetectionSideLimit: nat := 1280

  /** Landmarks read by the closed-mouth test, without an out-of-range guard. */
  const UpperLipCentre: nat := 13
  const LowerLipCentre: nat := 14
  const Chin: nat := 152
  const NoseBridge: nat := 168

  /** Tilt (in degrees, either way) beyond which the mask is rotation-corrected. */
  const TiltLimit: real := 10.0

  // ---------------------------------------------------------------------------
  // Scale factor

  /** The factor `detect_multiple_faces` records: the inverse of the downscale
      applied before detection, or 1 when the image is small enough. */
  function ScaleFactor(height: nat, width: nat): (f: real)
    ensures MaxInt(height, width) <= DetectionSideLimit ==> f == 1.0
    ensures MaxInt(height, width) > DetectionSideLimit ==>
              f > 1.0 && f * DetectionSideLimit as real == MaxInt(height, width) as real
  {
    var side := MaxInt(height, width);
    if side > DetectionSideLimit then
      var scale := DetectionSideLimit as real / side as real;
      1.0 / scale
    else 1.0
  }

  // ---------------------------------------------------------------------------
  // Contour extraction

  /** The pixel `get_lip_mask` computes for one landmark: the normalised
      coordinate is scaled to the image, truncated, and then multiplied by the
      detection scale factor a second time and truncated again. */
  function PixelOf(lm: Landmark, width: nat, height: nat, scale: real): Point {
    Point(ScaledCoordinate(lm.x, width, scale), ScaledCoordinate(lm.y, height, scale))
  }

  /** One coordinate of `PixelOf`: scaled to the side, truncated, scaled
      again and truncated again. */
  function ScaledCoordinate(t: real, side: nat, scale: real): int {
    Trunc(Trunc(t * side as real) as real * scale)
  }

  /** The entries of `table` that index into a landmark list of length `n`, in table order. */
  function KeptIndices(table: seq<nat>, n: nat): seq<nat> {
    if |table| == 0 then []
    else if table[0] < n then [table[0]] + KeptIndices(table[1..], n)
    else KeptIndices(table[1..], n)
  }

  /** The kept entries are exactly the table entries below `n`, and a table
      wholly below `n` is kept unchanged. */
  lemma {:induction false} KeptIndicesSpec(table: seq<nat>, n: nat)
    ensures |KeptIndices(table, n)| <= |table|
    ensures forall j :: 0 <= j < |KeptIndices(table, n)| ==>
              KeptIndices(table, n)[j] < n && KeptIndices(table, n)[j] in table
    ensures forall i :: 0 <= i < |table| && table[i] < n ==> table[i] in KeptIndices(table, n)
    ensures (forall i :: 0 <= i < |table| ==> table[i] < n) ==> KeptIndices(table, n) == table
  {
    KeptIndicesSound(table, n);
    KeptIndicesComplete(table, n);
    KeptIndicesWhole(table, n);
  }

  lemma {:induction false} KeptIndicesSound(table: seq<nat>, n: nat)
    ensures |KeptIndices(table, n)| <= |table|
    ensures forall j :: 0 <= j < |KeptIndices(table, n)| ==>
              KeptIndices(table, n)[j] < n && KeptIndices(table, n)[j] in table
  {
    if |table| > 0 {
      KeptIndicesSound(table[1..], n);
      assert table == [table[0]] + table[1..];
    }
  }

  lemma {:induction false} KeptIndicesComplete(table: seq<nat>, n: nat)
    ensures forall i :: 0 <= i < |table| && table[i] < n ==> table[i] in KeptIndices(table, n)
  {
    if |table| > 0 {
      KeptIndicesComplete(table[1..], n);
      assert forall i :: 1 <= i < |table| ==> table[i] == table[1..][i - 1];
    }
  }

  lemma {:induction false} KeptIndicesWhole(table: seq<nat>, n: nat)
    ensures (forall i :: 0 <= i < |table| ==> table[i] < n) ==> KeptIndices(table, n) == table
  {
    if |table| > 0 {
      KeptIndicesWhole(table[1..], n);
      assert forall i :: 1 <= i < |table| ==> table[i] == table[1..][i - 1];
      assert table == [table[0]] + table[1..];
    }
  }

  /** Collects the contour points of `table`, skipping every index the
      landmark list does not have (the source's `except IndexError: continue`). */
  function ExtractContour(table: seq<nat>, lms: seq<Landmark>, width: nat, height: nat, scale: real)
    : (pts: seq<Point>)
    ensures |pts| == |KeptIndices(table, |lms|)|
    ensures forall j :: 0 <= j < |pts| ==>
              KeptIndices(table, |lms|)[j] < |lms| &&
              pts[j] == PixelOf(lms[KeptIndices(table, |lms|)[j]], width, height, scale)
  {
    if |table| == 0 then []
    else
      var rest := ExtractContour(table[1..], lms, width, height, scale);
      if table[0] < |lms| then [PixelOf(lms[table[0]], width, height, scale)] + rest else rest
  }

  /** The largest entry of either lip table is 415. */
  lemma LipTablesBelow416()
    ensures |OuterLipIndices| == 20 && |InnerLipIndices| == 20
    ensures forall i :: 0 <= i < |OuterLipIndices| ==> OuterLipIndices[i] <= 415
    ensures forall i :: 0 <= i < |InnerLipIndices| ==> InnerLipIndices[i] <= 415
    ensures 415 in InnerLipIndices
  {
  }

  /** Every entry of `table` indexes a landmark, and the contour holds, in
      table order, the pixel of each entry's landmark. */
  predicate KeepsEveryPoint(table: seq<nat>, lms: seq<Landmark>, width: nat, height: nat, scale: real) {
    var pts := ExtractContour(table, lms, width, height, scale);
    && |pts| == |table|
    && forall j :: 0 <= j < |table| ==> table[j] < |lms| && pts[j] == PixelOf(lms[table[j]], width, height, scale)
  }

  /** A full face mesh (at least 416 landmarks) yields all 20 points of each
      contour, each one the pixel of its table entry. */
  lemma FullMeshYieldsTwentyPoints(lms: seq<Landmark>, width: nat, height: nat, scale: real)
    requires |lms| >= 416
    ensures |OuterLipIndices| == 20 && |InnerLipIndices| == 20
    ensures KeepsEveryPoint(OuterLipIndices, lms, width, height, scale)
    ensures KeepsEveryPoint(InnerLipIndices, lms, width, height, scale)
  {
    LipTablesBelow416();
    CoveredTableKeepsEveryPoint(OuterLipIndices, lms, 415, width, height, scale);
    CoveredTableKeepsEveryPoint(InnerLipIndices, lms, 415, width, height, scale);
  }

  lemma CoveredTableKeepsEveryPoint(table: seq<nat>, lms: seq<Landmark>, bound: nat, width: nat, height: nat,
                                    scale: real)
    requires forall i :: 0 <= i < |table| ==> table[i] <= bound
    requires bound < |lms|
    ensures KeepsEveryPoint(table, lms, width, height, scale)
  {
    KeptIndicesSpec(table, |lms|);
  }

  // ---------------------------------------------------------------------------
  // Closed mouth

  /** `_is_mouth_closed`: the lip gap is below 4% of the nose-bridge-to-chin height. */
  function MouthClosed(lms: seq<Landmark>, width: nat, height: nat): bool
    requires |lms| > NoseBridge
  {
    var topY := lms[UpperLipCentre].y * height as real;
    var bottomY := lms[LowerLipCentre].y * height as real;
    var noseTop := lms[NoseBridge].y * height as real;
    var chin := lms[Chin].y * height as real;
    var faceHeight := chin - noseTop;
    (bottomY - topY) < faceHeight * 0.04
  }

  /** For a non-empty image the test depends only on the four normalised y
      coordinates: neither the width nor the height changes the verdict. */
  lemma MouthClosedIgnoresImageSize(lms: seq<Landmark>, width: nat, height: nat)
    requires |lms| > NoseBridge
    requires height > 0
    ensures MouthClosed(lms, width, height) <==>
              lms[14].y - lms[13].y < 0.04 * (lms[152].y - lms[168].y)
  {
    var h := height as real;
    var gap := lms[14].y - lms[13].y;
    var face := 0.04 * (lms[152].y - lms[168].y);
    assert lms[14].y * h - lms[13].y * h == gap * h;
    assert (lms[152].y * h - lms[168].y * h) * 0.04 == face * h;
    ScaledLessIff(gap, face, h);
  }

  lemma ScaledLessIff(a: real, b: real, h: real)
    requires h > 0.0
    ensures a * h < b * h <==> a < b
  {
    assert b * h - a * h == (b - a) * h;
    if a < b {
      assert (b - a) * h > 0.0;
    } else {
      assert (a - b) * h >= 0.0;
    }
  }

  // ---------------------------------------------------------------------------
  // Tilt

  /** `np.argmin` over the x coordinates: the first point of minimal x. */
  function LeftmostIndex(pts: seq<Point>): (k: nat)
    requires |pts| > 0
    ensures k < |pts|
    ensures forall j :: 0 <= j < |pts| ==> pts[k].x <= pts[j].x
    ensures forall j :: 0 <= j < k ==> pts[j].x > pts[k].x
  {
    LeftmostAmongFirst(pts, |pts|)
  }

  /** The first point of minimal x among the first `n`. */
  function LeftmostAmongFirst(pts: seq<Point>, n: nat): (k: nat)
    requires 0 < n <= |pts|
    ensures k < n
    ensures forall j :: 0 <= j < n ==> pts[k].x <= pts[j].x
    ensures forall j :: 0 <= j < k ==> pts[j].x > pts[k].x
  {
    if n == 1 then 0
    else
      var k := LeftmostAmongFirst(pts, n - 1);
      if pts[n - 1].x < pts[k].x then n - 1 else k
  }

  /** `np.argmax` over the x coordinates: the first point of maximal x. */
  function RightmostIndex(pts: seq<Point>): (k: nat)
    requires |pts| > 0
    ensures k < |pts|
    ensures forall j :: 0 <= j < |pts| ==> pts[j].x <= pts[k].x
    ensures forall j :: 0 <= j < k ==> pts[j].x < pts[k].x
  {
    RightmostAmongFirst(pts, |pts|)
  }

  /** The first point of maximal x among the first `n`. */
  function RightmostAmongFirst(pts: seq<Point>, n: nat): (k: nat)
    requires 0 < n <= |pts|
    ensures k < n
    ensures forall j :: 0 <= j < n ==> pts[j].x <= pts[k].x
    ensures forall j :: 0 <= j < k ==> pts[j].x < pts[k].x
  {
    if n == 1 then 0
    else
      var k := RightmostAmongFirst(pts, n - 1);
      if pts[n - 1].x > pts[k].x then n - 1 else k
  }

  /** When the leftmost and rightmost points are different points, the
      rightmost lies strictly to the right, so `_get_lip_angle`'s
      `delta_x == 0` guard can never fire. */
  lemma DistinctExtremesSpanPositiveWidth(pts: seq<Point>)
    requires |pts| > 0
    requires LeftmostIndex(pts) != RightmostIndex(pts)
    ensures pts[RightmostIndex(pts)].x - pts[LeftmostIndex(pts)].x > 0
  {
  }

  /** `_get_lip_angle`, with `degrees(atan2(dy, dx))` as the parameter `atan2Deg`.
      The result is 0 for fewer than two points or when one point is both the
      leftmost and the rightmost; otherwise it is the angle of a vector whose
      x component is positive (the source's `return 90` is dead code). */
  function LipAngle(pts: seq<Point>, atan2Deg: (int, int) -> real): (angle: real)
    ensures |pts| < 2 ==> angle == 0.0
    ensures |pts| >= 2 && LeftmostIndex(pts) == RightmostIndex(pts) ==> angle == 0.0
    ensures |pts| >= 2 && LeftmostIndex(pts) != RightmostIndex(pts) ==>
              var l, r := pts[LeftmostIndex(pts)], pts[RightmostIndex(pts)];
              r.x - l.x > 0 && angle == atan2Deg(r.y - l.y, r.x - l.x)
  {
    if |pts| < 2 then 0.0
    else
      var li, ri := LeftmostIndex(pts), RightmostIndex(pts);
      if ri == li then 0.0
      else
        var dx := pts[ri].x - pts[li].x;
        var dy := pts[ri].y - pts[li].y;
        DistinctExtremesSpanPositiveWidth(pts);
        if dx == 0 then 90.0 else atan2Deg(dy, dx)
  }

  /** The mask is rotation-corrected only for a tilt strictly beyond 10 degrees. */
  predicate NeedsTiltCorrection(angle: real) {
    angle > TiltLimit || angle < -TiltLimit
  }

  /** `atan2` of a horizontal vector pointing right is zero. */
  ghost predicate LevelIsZero(atan2Deg: (int, int) -> real) {
    forall dx :: dx > 0 ==> atan2Deg(0, dx) == 0.0
  }

  /** Lips whose leftmost and rightmost points are level are never rotated. */
  lemma LevelLipsAreNotRotated(pts: seq<Point>, atan2Deg: (int, int) -> real)
    requires LevelIsZero(atan2Deg)
    requires |pts| > 0
    requires pts[LeftmostIndex(pts)].y == pts[RightmostIndex(pts)].y
    ensures LipAngle(pts, atan2Deg) == 0.0
    ensures !NeedsTiltCorrection(LipAngle(pts, atan2Deg))
  {
    if |pts| >= 2 {
      var li, ri := LeftmostIndex(pts), RightmostIndex(pts);
      if li != ri {
        var dx := pts[ri].x - pts[li].x;
        var dy := pts[ri].y - pts[li].y;
        assert dy == 0;
        LevelAt(atan2Deg, dx);
        LipAngleOfDistinct(pts, atan2Deg);
      }
    }
  }

  lemma LipAngleOfDistinct(pts: seq<Point>, atan2Deg: (int, int) -> real)
    requires |pts| >= 2 && LeftmostIndex(pts) != RightmostIndex(pts)
    ensures LipAngle(pts, atan2Deg) == atan2Deg(pts[RightmostIndex(pts)].y - pts[LeftmostIndex(pts)].y,
                                                 pts[RightmostIndex(pts)].x - pts[LeftmostIndex(pts)].x)
  {
  }

  lemma LevelAt(atan2Deg: (int, int) -> real, dx: int)
    requires LevelIsZero(atan2Deg)
    requires dx > 0
    ensures atan2Deg(0, dx) == 0.0
  {
  }

  function SumX(pts: seq<Point>): int {
    if |pts| == 0 then 0 else SumX(pts[..|pts| - 1]) + pts[|pts| - 1].x
  }

  function SumY(pts: seq<Point>): int {
    if |pts| == 0 then 0 else SumY(pts[..|pts| - 1]) + pts[|pts| - 1].y
  }

  /** The rotation centre: `int(np.mean(...))` of each coordinate. */
  function Centroid(pts: seq<Point>): Point
    requires |pts| > 0
  {
    Point(Trunc(SumX(pts) as real / |pts| as real), Trunc(SumY(pts) as real / |pts| as real))
  }

  // ---------------------------------------------------------------------------
  // get_lip_mask

  /** A rotation about `centre` by `angle` degrees (then back by `-angle`). */
  datatype Rotation = Rotation(centre: Point, angle: real)

  /** What `get_lip_mask` draws: the outer polygon at 255, the inner polygon at
      0 when the cavity is cut, and an optional tilt correction. */
  datatype MaskPlan = MaskPlan(outer: seq<Point>, inner: seq<Point>, cutCavity: bool, tilt: Option<Rotation>)

  /** `get_lip_mask`'s three outcomes: `None`, an `IndexError` escaping from
      `_is_mouth_closed`, or a mask built from a plan. */
  datatype MaskOutcome = NoMask | IndexFailure | Built(plan: MaskPlan)

  /** `get_lip_mask`, up to the rasteriser. */
  function GetLipMask(det: Detector, landmarks: Option<seq<Landmark>>, width: nat, height: nat, scale: real,
                      atan2Deg: (int, int) -> real): (r: MaskOutcome)
    ensures landmarks.None? ==> r == NoMask
    ensures landmarks.Some? ==>
              (r == NoMask <==>
                 (|KeptIndices(det.outerLipPoints, |landmarks.value|)| <= 3
                  || |KeptIndices(det.innerLipPoints, |landmarks.value|)| <= 3))
    ensures r.Built? ==> landmarks.Some? && |landmarks.value| > NoseBridge
    ensures r.Built? ==> |r.plan.outer| > 3 && |r.plan.inner| > 3
    ensures r.Built? ==> (r.plan.cutCavity <==> !MouthClosed(landmarks.value, width, height))
    ensures r.Built? ==> (r.plan.tilt.Some? <==> NeedsTiltCorrection(LipAngle(r.plan.outer, atan2Deg)))
    ensures r.Built? ==>
              && r.plan.outer == ExtractContour(det.outerLipPoints, landmarks.value, width, height, scale)
              && r.plan.inner == ExtractContour(det.innerLipPoints, landmarks.value, width, height, scale)
    ensures r.Built? && r.plan.tilt.Some? ==>
              r.plan.tilt.value == Rotation(Centroid(r.plan.outer), LipAngle(r.plan.outer, atan2Deg))
    ensures landmarks.Some? && r != NoMask ==> (r == IndexFailure <==> |landmarks.value| <= NoseBridge)
  {
    match landmarks
    case None => NoMask
    case Some(lms) =>
      var outer := ExtractContour(det.outerLipPoints, lms, width, height, scale);
      var inner := ExtractContour(det.innerLipPoints, lms, width, height, scale);
      if |outer| <= 3 || |inner| <= 3 then NoMask
      else if |lms| <= NoseBridge then IndexFailure
      else
        var closed := MouthClosed(lms, width, height);
        var angle := LipAngle(outer, atan2Deg);
        var tilt := if NeedsTiltCorrection(angle) then Some(Rotation(Centroid(outer), angle)) else None;
        Built(MaskPlan(outer, inner, !closed, tilt))
  }

  /** A full mesh always produces a mask. */
  lemma FullMeshBuildsMask(det: Detector, lms: seq<Landmark>, width: nat, height: nat, scale: real,
                           atan2Deg: (int, int) -> real)
    requires Standard(det) && |lms| >= 416
    ensures GetLipMask(det, Some(lms), width, height, scale, atan2Deg).Built?
  {
    FullMeshYieldsTwentyPoints(lms, width, height, scale);
  }

  /** A landmark list too short for the closed-mouth test, yet long enough for
      both contours, makes `get_lip_mask` raise rather than return `None`. */
  lemma ShortMeshRaises(det: Detector, lms: seq<Landmark>, width: nat, height: nat, scale: real,
                        atan2Deg: (int, int) -> real)
    requires Standard(det) && 100 <= |lms| <= NoseBridge
    ensures GetLipMask(det, Some(lms), width, height, scale, atan2Deg) == IndexFailure
  {
    ShortMeshContours(lms, width, height, scale);
    var outer := ExtractContour(OuterLipIndices, lms, width, height, scale);
    var inner := ExtractContour(InnerLipIndices, lms, width, height, scale);
    assert !(|outer| <= 3 || |inner| <= 3);
  }

  /** Any list of at least 100 landmarks holds four points of each contour. */
  lemma ShortMeshContours(lms: seq<Landmark>, width: nat, height: nat, scale: real)
    requires 100 <= |lms|
    ensures |ExtractContour(OuterLipIndices, lms, width, height, scale)| >= 4
    ensures |ExtractContour(InnerLipIndices, lms, width, height, scale)| >= 4
  {
    OuterTableHasFourBelow100(|lms|);
    InnerTableHasFourBelow100(|lms|);
  }

  /** Entries 0, 17, 84 and 91 of the outer table survive any list of 100 landmarks. */
  lemma OuterTableHasFourBelow100(n: nat)
    requires 100 <= n
    ensures |KeptIndices(OuterLipIndices, n)| >= 4
  {
    assert OuterLipIndices[0] == 0 && OuterLipIndices[10] == 17;
    assert OuterLipIndices[11] == 84 && OuterLipIndices[13] == 91;
    assert |{0, 17, 84, 91}| == 4;
    FourKeptEntries(OuterLipIndices, n, 0, 10, 11, 13);
  }

  /** Entries 78, 80, 81 and 82 of the inner table survive any list of 100 landmarks. */
  lemma InnerTableHasFourBelow100(n: nat)
    requires 100 <= n
    ensures |KeptIndices(InnerLipIndices, n)| >= 4
  {
    assert InnerLipIndices[0] == 78 && InnerLipIndices[2] == 80;
    assert InnerLipIndices[3] == 81 && InnerLipIndices[4] == 82;
    assert |{78, 80, 81, 82}| == 4;
    FourKeptEntries(InnerLipIndices, n, 0, 2, 3, 4);
  }

  /** Four distinct table entries below `n` are all kept. */
  lemma FourKeptEntries(table: seq<nat>, n: nat, a: nat, b: nat, c: nat, d: nat)
    requires a < |table| && b < |table| && c < |table| && d < |table|
    requires table[a] < n && table[b] < n && table[c] < n && table[d] < n
    requires |{table[a], table[b], table[c], table[d]}| == 4
    ensures |KeptIndices(table, n)| >= 4
  {
    KeptIndicesSpec(table, n);
    MembersBoundLength(KeptIndices(table, n), {table[a], table[b], table[c], table[d]});
  }

  /** A sequence is at least as long as any set of values it contains. */
  lemma {:induction false} MembersBoundLength(s: seq<nat>, xs: set<nat>)
    requires forall x :: x in xs ==> x in s
    ensures |xs| <= |s|
  {
    if |s| > 0 {
      var rest := xs - {s[0]};
      forall x | x in rest
        ensures x in s[1..]
      {
        var i :| 0 <= i < |s| && s[i] == x;
        assert i > 0 && s[1..][i - 1] == x;
      }
      MembersBoundLength(s[1..], rest);
    } else {
      assert xs == {};
    }
  }

  /** The value `fillPoly` leaves at pixel `p` before morphology, where
      `inside(poly, p)` is the rasteriser's coverage test. */
  function FilledValue(plan: MaskPlan, inside: (seq<Point>, Point) -> bool, p: Point): int {
    var afterOuter := if inside(plan.outer, p) then 255 else 0;
    if plan.cutCavity && inside(plan.inner, p) then 0 else afterOuter
  }

  /** A closed mouth fills the whole outer polygon; an open mouth leaves the
      inner polygon hollow. */
  lemma CavityCutOnlyWhenOpen(plan: MaskPlan, inside: (seq<Point>, Point) -> bool, p: Point)
    ensures !plan.cutCavity ==> (FilledValue(plan, inside, p) == 255 <==> inside(plan.outer, p))
    ensures plan.cutCavity ==>
              (FilledValue(plan, inside, p) == 255 <==> inside(plan.outer, p) && !inside(plan.inner, p))
    ensures FilledValue(plan, inside, p) == 0 || FilledValue(plan, inside, p) == 255
  {
  }

  /** The built mask hollows the inner lips exactly when the mouth is open. */
  lemma ClosedMouthIsSolid(det: Detector, lms: seq<Landmark>, width: nat, height: nat, scale: real,
                           atan2Deg: (int, int) -> real, inside: (seq<Point>, Point) -> bool, p: Point)
    requires GetLipMask(det, Some(lms), width, height, scale, atan2Deg).Built?
    ensures var plan := GetLipMask(det, Some(lms), width, height, scale, atan2Deg).plan;
            MouthClosed(lms, width, height) ==> (FilledValue(plan, inside, p) == 255 <==> inside(plan.outer, p))
    ensures var plan := GetLipMask(det, Some(lms), width, height, scale, atan2Deg).plan;
            !MouthClosed(lms, width, height) && inside(plan.inner, p) ==> FilledValue(plan, inside, p) == 0
  {
  }

  /** The second multiplication by the scale factor pushes contour points
      outside the image: on an image whose width is its longer side and
      exceeds the detection limit, a landmark lands at or beyond the right
      border exactly when its first pixel column is 1280 or more, which
      every landmark in the image's last columns has. */
  lemma DoubleScalingLeavesImage(lm: Landmark, width: nat, height: nat)
    requires DetectionSideLimit < width && height <= width
    ensures PixelOf(lm, width, height, ScaleFactor(height, width)).x >= width
            <==> Trunc(lm.x * width as real) >= DetectionSideLimit
  {
    assert MaxInt(height, width) == width;
    ScaledPixelOutside(lm, width, height, ScaleFactor(height, width));
  }

  /** The same for any factor `f` with `f·1280 = width`. */
  lemma ScaledPixelOutside(lm: Landmark, width: nat, height: nat, f: real)
    requires f > 1.0 && f * DetectionSideLimit as real == width as real
    ensures ScaledCoordinate(lm.x, width, f) >= width <==> Trunc(lm.x * width as real) >= DetectionSideLimit
  {
    var p := Trunc(lm.x * width as real);
    assert ScaledCoordinate(lm.x, width, f) == Trunc(p as real * f);
    ScaledColumnOutside(p, f, width);
  }

  /** A column `p`, scaled by a factor `f` with `f·1280 = width`, reaches
      `width` exactly when `p` is at least 1280. */
  lemma ScaledColumnOutside(p: int, f: real, width: nat)
    requires f > 1.0 && f * DetectionSideLimit as real == width as real
    ensures Trunc(p as real * f) >= width <==> p >= DetectionSideLimit
  {
    var v := p as real * f;
    var limit := DetectionSideLimit as real;
    if p >= DetectionSideLimit {
      NonNegativeProduct(p as real - limit, f);
      assert v - limit * f == (p as real - limit) * f;
    } else if p >= 0 {
      NonNegativeProduct(limit - p as real - 1.0, f);
      assert limit * f - v == (limit - p as real - 1.0) * f + f;
    } else {
      NonNegativeProduct(-p as real, f);
    }
  }
}
