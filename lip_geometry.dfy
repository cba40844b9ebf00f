/** Lip-gap feature extraction: the mean y-coordinate of the upper-lip and
    lower-lip landmarks of a 68-point face landmark set, each truncated to an
    integer, and the absolute difference of the two. */
module LipGeometry {

  /** One landmark, in integer pixel coordinates. */
  datatype Point = Point(x: int, y: int)

  /** The landmark scheme has 68 points; the lip indices below all lie under it. */
  const LandmarkCount: nat := 68

  /** Outer and inner upper-lip landmarks, in the order they are collected. */
  const TopLipIndices: seq<nat> := [50, 51, 52, 61, 62, 63]

  /** Outer and inner lower-lip landmarks, in the order they are collected. */
  const BottomLipIndices: seq<nat> := [65, 66, 67, 56, 57, 58]

  predicate IsLandmarkSet(landmarks: seq<Point>)
  {
    |landmarks| >= LandmarkCount
  }

  predicate IndicesIn(landmarks: seq<Point>, indices: seq<nat>)
  {
    forall k :: 0 <= k < |indices| ==> indices[k] < |landmarks|
  }

  /** Integer division truncating toward zero, as a conversion of a real
      quotient with `int` does (Dafny's own `/` is Euclidean). */
  function TruncDiv(a: int, b: int): (q: int)
    requires b > 0
    ensures 0 <= a ==> q * b <= a < q * b + b
    ensures a < 0 ==> q * b - b < a <= q * b
  {
    if a >= 0 then a / b else -((-a) / b)
  }

  /** Sum of the y-coordinates of a list of points. */
  function SumY(pts: seq<Point>): int
  {
    if pts == [] then 0 else pts[0].y + SumY(pts[1..])
  }

  /** The y-component of the mean of a non-empty list of points, truncated
      toward zero. */
  function TruncMeanY(pts: seq<Point>): int
    requires pts != []
  {
    TruncDiv(SumY(pts), |pts|)
  }

  /** The points at the given indices, in the order of the indices. */
  function Gather(landmarks: seq<Point>, indices: seq<nat>): seq<Point>
    requires IndicesIn(landmarks, indices)
  {
    seq(|indices|, k requires 0 <= k < |indices| => landmarks[indices[k]])
  }

  /** Truncated mean y-coordinate of the landmarks at the given indices. */
  function LipCenter(landmarks: seq<Point>, indices: seq<nat>): int
    requires indices != [] && IndicesIn(landmarks, indices)
  {
    TruncMeanY(Gather(landmarks, indices))
  }

  function TopLipCenter(landmarks: seq<Point>): int
    requires IsLandmarkSet(landmarks)
  {
    LipCenter(landmarks, TopLipIndices)
  }

  function BottomLipCenter(landmarks: seq<Point>): int
    requires IsLandmarkSet(landmarks)
  {
    LipCenter(landmarks, BottomLipIndices)
  }

  function Abs(n: int): nat
  {
    if n < 0 then -n else n
  }

  /** The vertical separation of the two lip centres. */
  function LipGap(landmarks: seq<Point>): (d: nat)
    requires IsLandmarkSet(landmarks)
    ensures d == TopLipCenter(landmarks) - BottomLipCenter(landmarks)
         || d == BottomLipCenter(landmarks) - TopLipCenter(landmarks)
    ensures d == 0 <==> TopLipCenter(landmarks) == BottomLipCenter(landmarks)
  {
    Abs(TopLipCenter(landmarks) - BottomLipCenter(landmarks))
  }

  /** Collects the upper-lip landmarks into a list and returns its truncated
      mean y-coordinate. */
  method TopLip(landmarks: seq<Point>) returns (center: int)
    requires IsLandmarkSet(landmarks)
    ensures center == TopLipCenter(landmarks)
  {
    var topLipPts: seq<Point> := [];
    for i := 50 to 53
      invariant topLipPts == landmarks[50..i]
    {
      topLipPts := topLipPts + [landmarks[i]];
    }
    for i := 61 to 64
      invariant topLipPts == landmarks[50..53] + landmarks[61..i]
    {
      topLipPts := topLipPts + [landmarks[i]];
    }
    assert topLipPts == Gather(landmarks, TopLipIndices);
    center := TruncMeanY(topLipPts);
  }

  /** Collects the lower-lip landmarks into a list and returns its truncated
      mean y-coordinate. */
  method BottomLip(landmarks: seq<Point>) returns (center: int)
    requires IsLandmarkSet(landmarks)
    ensures center == BottomLipCenter(landmarks)
  {
    var bottomLipPts: seq<Point> := [];
    for i := 65 to 68
      invariant bottomLipPts == landmarks[65..i]
    {
      bottomLipPts := bottomLipPts + [landmarks[i]];
    }
    for i := 56 to 59
      invariant bottomLipPts == landmarks[65..68] + landmarks[56..i]
    {
      bottomLipPts := bottomLipPts + [landmarks[i]];
    }
    assert bottomLipPts == Gather(landmarks, BottomLipIndices);
    center := TruncMeanY(bottomLipPts);
  }

  /** The lip distance of one landmark set. */
  method MouthOpen(landmarks: seq<Point>) returns (lipDistance: int)
    requires IsLandmarkSet(landmarks)
    ensures lipDistance == LipGap(landmarks)
    ensures lipDistance >= 0
  {
    var topLipCenter := TopLip(landmarks);
    var bottomLipCenter := BottomLip(landmarks);
    lipDistance := Abs(topLipCenter - bottomLipCenter);
  }

  // ---------------------------------------------------------------------
  // Properties of the lip centres and the lip gap
  // ---------------------------------------------------------------------

  lemma {:induction false} SumYSix(pts: seq<Point>)
    requires |pts| == 6
    ensures SumY(pts) == pts[0].y + pts[1].y + pts[2].y + pts[3].y + pts[4].y + pts[5].y
  {
    assert pts[5..][1..] == [];
    assert SumY(pts[5..]) == pts[5].y;
    assert pts[4..][1..] == pts[5..];
    assert SumY(pts[4..]) == pts[4].y + pts[5].y;
    assert pts[3..][1..] == pts[4..];
    assert SumY(pts[3..]) == pts[3].y + SumY(pts[4..]);
    assert pts[2..][1..] == pts[3..];
    assert SumY(pts[2..]) == pts[2].y + SumY(pts[3..]);
    assert pts[1..][1..] == pts[2..];
    assert SumY(pts[1..]) == pts[1].y + SumY(pts[2..]);
  }

  /** The upper-lip centre is the truncated mean of the y-coordinates of
      landmarks 50, 51, 52, 61, 62 and 63. */
  lemma TopLipCenterIsMean(landmarks: seq<Point>)
    requires IsLandmarkSet(landmarks)
    ensures TopLipCenter(landmarks)
         == TruncDiv(landmarks[50].y + landmarks[51].y + landmarks[52].y
                     + landmarks[61].y + landmarks[62].y + landmarks[63].y, 6)
  {
    SumYSix(Gather(landmarks, TopLipIndices));
  }

  /** The lower-lip centre is the truncated mean of the y-coordinates of
      landmarks 65, 66, 67, 56, 57 and 58. */
  lemma BottomLipCenterIsMean(landmarks: seq<Point>)
    requires IsLandmarkSet(landmarks)
    ensures BottomLipCenter(landmarks)
         == TruncDiv(landmarks[65].y + landmarks[66].y + landmarks[67].y
                     + landmarks[56].y + landmarks[57].y + landmarks[58].y, 6)
  {
    SumYSix(Gather(landmarks, BottomLipIndices));
  }

  /** Two landmark sets whose y-coordinates agree at the given indices have the
      same centre there: no other landmark, and no x-coordinate, is read. */
  lemma {:induction false} LipCenterReadsOnlyIndices(a: seq<Point>, b: seq<Point>, indices: seq<nat>)
    requires indices != [] && IndicesIn(a, indices) && IndicesIn(b, indices)
    requires forall k :: 0 <= k < |indices| ==> a[indices[k]].y == b[indices[k]].y
    ensures LipCenter(a, indices) == LipCenter(b, indices)
  {
    SumYAgree(Gather(a, indices), Gather(b, indices));
  }

  lemma {:induction false} SumYAgree(p: seq<Point>, q: seq<Point>)
    requires |p| == |q|
    requires forall k :: 0 <= k < |p| ==> p[k].y == q[k].y
    ensures SumY(p) == SumY(q)
  {
    if p != [] {
      SumYAgree(p[1..], q[1..]);
    }
  }

  /** The lip gap depends only on the y-coordinates of the twelve lip landmarks. */
  lemma LipGapReadsOnlyLips(a: seq<Point>, b: seq<Point>)
    requires IsLandmarkSet(a) && IsLandmarkSet(b)
    requires forall k :: 0 <= k < |TopLipIndices| ==> a[TopLipIndices[k]].y == b[TopLipIndices[k]].y
    requires forall k :: 0 <= k < |BottomLipIndices| ==> a[BottomLipIndices[k]].y == b[BottomLipIndices[k]].y
    ensures LipGap(a) == LipGap(b)
  {
    LipCenterReadsOnlyIndices(a, b, TopLipIndices);
    LipCenterReadsOnlyIndices(a, b, BottomLipIndices);
  }

  /** Every point moved by the same vector. */
  function Translate(pts: seq<Point>, dx: int, dy: int): seq<Point>
  {
    seq(|pts|, i requires 0 <= i < |pts| => Point(pts[i].x + dx, pts[i].y + dy))
  }

  predicate NonNegativeY(pts: seq<Point>)
  {
    forall i :: 0 <= i < |pts| ==> pts[i].y >= 0
  }

  predicate NonPositiveY(pts: seq<Point>)
  {
    forall i :: 0 <= i < |pts| ==> pts[i].y <= 0
  }

  /** The y-coordinates at the given indices are all on the same side of zero
      before the vertical shift `dy` and after it. */
  predicate StaysOnOneSide(landmarks: seq<Point>, indices: seq<nat>, dy: int)
    requires IndicesIn(landmarks, indices)
  {
    (forall k :: 0 <= k < |indices| ==>
       landmarks[indices[k]].y >= 0 && landmarks[indices[k]].y + dy >= 0)
    || (forall k :: 0 <= k < |indices| ==>
       landmarks[indices[k]].y <= 0 && landmarks[indices[k]].y + dy <= 0)
  }

  lemma {:induction false} SumYTranslate(pts: seq<Point>, dx: int, dy: int)
    ensures SumY(Translate(pts, dx, dy)) == SumY(pts) + |pts| * dy
  {
    if pts != [] {
      assert Translate(pts, dx, dy)[1..] == Translate(pts[1..], dx, dy);
      SumYTranslate(pts[1..], dx, dy);
    }
  }

  /** Adding n * d to a numerator that stays on the same side of zero adds
      exactly d to its truncated quotient by n. */
  lemma TruncDivShift(s: int, n: int, d: int)
    requires n > 0
    requires (s >= 0 && s + n * d >= 0) || (s <= 0 && s + n * d <= 0)
    ensures TruncDiv(s + n * d, n) == TruncDiv(s, n) + d
  {
    if s >= 0 && s + n * d >= 0 {
      DivShift(s, n, d);
    } else {
      assert TruncDiv(s, n) == -((-s) / n);
      assert TruncDiv(s + n * d, n) == -((-s + n * (-d)) / n);
      DivShift(-s, n, -d);
    }
  }

  /** For a numerator that stays non-negative, adding n * d adds exactly d to
      its Euclidean quotient by n. */
  lemma DivShift(s: int, n: int, d: int)
    requires n > 0 && s >= 0 && s + n * d >= 0
    ensures (s + n * d) / n == s / n + d
  {
    var q := s / n;
    var r := s % n;
    assert s == n * q + r && 0 <= r < n;
    assert s + n * d == n * (q + d) + r;
    DivOfQuotientAndRemainder(s + n * d, n, q + d, r);
  }

  /** Euclidean division has a unique quotient and remainder. */
  lemma DivOfQuotientAndRemainder(a: int, n: int, q: int, r: int)
    requires n > 0 && a == n * q + r && 0 <= r < n
    ensures a / n == q
  {
    var q0, r0 := a / n, a % n;
    assert a == n * q0 + r0 && 0 <= r0 < n;
    assert n * (q - q0) == r0 - r;
    if q > q0 {
      MulAtLeastOne(n, q - q0);
    } else if q < q0 {
      MulAtLeastOne(n, q0 - q);
    }
  }

  lemma MulAtLeastOne(n: int, k: int)
    requires n > 0 && k >= 1
    ensures n * k >= n
  {
  }

  /** A translation that keeps the selected y-coordinates on one side of zero
      moves their centre by exactly the vertical shift. */
  lemma LipCenterTranslate(landmarks: seq<Point>, indices: seq<nat>, dx: int, dy: int)
    requires indices != [] && IndicesIn(landmarks, indices)
    requires StaysOnOneSide(landmarks, indices, dy)
    ensures LipCenter(Translate(landmarks, dx, dy), indices) == LipCenter(landmarks, indices) + dy
  {
    var pts := Gather(landmarks, indices);
    var moved := Translate(pts, dx, dy);
    assert Gather(Translate(landmarks, dx, dy), indices) == moved;
    SumYTranslate(pts, dx, dy);
    if NonNegativeY(pts) && NonNegativeY(moved) {
      SumYNonNegative(pts);
      SumYNonNegative(moved);
    } else {
      assert NonPositiveY(pts) && NonPositiveY(moved);
      SumYNonPositive(pts);
      SumYNonPositive(moved);
    }
    TruncDivShift(SumY(pts), |pts|, dy);
  }

  lemma {:induction false} SumYNonNegative(pts: seq<Point>)
    requires NonNegativeY(pts)
    ensures SumY(pts) >= 0
  {
    if pts != [] {
      SumYNonNegative(pts[1..]);
    }
  }

  lemma {:induction false} SumYNonPositive(pts: seq<Point>)
    requires NonPositiveY(pts)
    ensures SumY(pts) <= 0
  {
    if pts != [] {
      SumYNonPositive(pts[1..]);
    }
  }

  /** Translating the whole landmark set by any vector that keeps the upper-lip
      y-coordinates on one side of zero, and the lower-lip ones on one side of
      zero, leaves the lip gap unchanged. */
  lemma LipGapTranslationInvariant(landmarks: seq<Point>, dx: int, dy: int)
    requires IsLandmarkSet(landmarks)
    requires StaysOnOneSide(landmarks, TopLipIndices, dy)
    requires StaysOnOneSide(landmarks, BottomLipIndices, dy)
    ensures LipGap(Translate(landmarks, dx, dy)) == LipGap(landmarks)
  {
    LipCenterTranslate(landmarks, TopLipIndices, dx, dy);
    LipCenterTranslate(landmarks, BottomLipIndices, dx, dy);
  }

  /** In particular, a translation that keeps every y-coordinate non-negative
      leaves the lip gap unchanged. */
  lemma LipGapTranslationInvariantNonNegative(landmarks: seq<Point>, dx: int, dy: int)
    requires IsLandmarkSet(landmarks)
    requires NonNegativeY(landmarks) && NonNegativeY(Translate(landmarks, dx, dy))
    ensures LipGap(Translate(landmarks, dx, dy)) == LipGap(landmarks)
  {
    var moved := Translate(landmarks, dx, dy);
    forall k | 0 <= k < |TopLipIndices|
      ensures landmarks[TopLipIndices[k]].y + dy >= 0
    {
      assert moved[TopLipIndices[k]].y == landmarks[TopLipIndices[k]].y + dy;
    }
    forall k | 0 <= k < |BottomLipIndices|
      ensures landmarks[BottomLipIndices[k]].y + dy >= 0
    {
      assert moved[BottomLipIndices[k]].y == landmarks[BottomLipIndices[k]].y + dy;
    }
    LipGapTranslationInvariant(landmarks, dx, dy);
  }

  /** Without the one-side requirement the invariance fails: truncation
      toward zero rounds a negative mean up and a positive one down, so a
      shift that moves a lip's y-coordinates across zero can change the gap. */
  lemma TranslationAcrossZeroCanChangeGap()
    ensures var landmarks := seq(68, i => if i == 63 then Point(0, -1) else Point(0, 0));
            LipGap(landmarks) == 0 && LipGap(Translate(landmarks, 0, 1)) == 1
  {
    var landmarks := seq(68, i => if i == 63 then Point(0, -1) else Point(0, 0));
    var shifted := Translate(landmarks, 0, 1);
    TopLipCenterIsMean(landmarks);
    BottomLipCenterIsMean(landmarks);
    TopLipCenterIsMean(shifted);
    BottomLipCenterIsMean(shifted);
  }
}
