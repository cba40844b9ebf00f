/** The frame loop: for each observed frame, measure the lip distance from its
    landmarks, feed it with the frame's eye ratio to the yawn session, and at
    the end hand back the yawn count and the per-frame log. */
module Detector {
  import opened LipGeometry
  import opened YawnSession

  /** What the landmark detector and the eye measurement give for one frame. */
  datatype Observation = Observation(landmarks: seq<Point>, eyeDistance: real)

  predicate AllLandmarkSets(observations: seq<Observation>)
  {
    forall k :: 0 <= k < |observations| ==> IsLandmarkSet(observations[k].landmarks)
  }

  /** The features the session sees for each observation. */
  function Features(observations: seq<Observation>): seq<Frame>
    requires AllLandmarkSets(observations)
  {
    seq(|observations|, k requires 0 <= k < |observations| =>
      Frame(LipGap(observations[k].landmarks), observations[k].eyeDistance))
  }

  /** Runs a fresh session over the observations in order and returns its
      final flag, its yawn count and its log. */
  method DetectYawns(observations: seq<Observation>)
      returns (yawnStatus: bool, yawns: nat, log: seq<LogRecord>)
    requires AllLandmarkSets(observations)
    ensures yawnStatus == LastOr(false, Statuses(Features(observations)))
    ensures yawns == FallingEdges(false, Statuses(Features(observations)))
    ensures yawns == |FallingPositions(false, Statuses(Features(observations)))|
    ensures log == Records(Features(observations))
    ensures |log| == |observations|
  {
    ghost var frames := Features(observations);
    var session := new Session();
    for i := 0 to |observations|
      invariant session.Current() == Run(Initial, frames[..i])
    {
      var lipDistance := MouthOpen(observations[i].landmarks);
      assert frames[i] == Frame(lipDistance, observations[i].eyeDistance);
      session.Step(lipDistance, observations[i].eyeDistance);
      assert frames[..i + 1][..i] == frames[..i];
    }
    assert frames[..|observations|] == frames;
    yawnStatus, yawns, log := session.yawnStatus, session.yawns, session.log;
    RunStatus(Initial, frames);
    RunYawns(Initial, frames);
    RunLog(Initial, frames);
    FallingEdgesCountsPositions(false, Statuses(frames));
  }
}
