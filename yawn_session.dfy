/** The per-frame yawn state machine: a yawning flag recomputed from each
    frame's lip distance and eye ratio, a counter of yawns that is bumped when
    the flag falls, and an append-only log of one record per frame. */
module YawnSession {

  /** The lip distance must exceed this, in pixels. */
  const LipThreshold: int := 25

  /** The eye ratio must be below this. */
  const EyeThreshold: real := 0.16

  /** The two features of one frame. */
  datatype Frame = Frame(lipDistance: int, eyeDistance: real)

  /** One row of the per-frame log. */
  datatype LogRecord = LogRecord(lipDistance: int, yawnStatus: bool)

  /** The whole session state, as a value. */
  datatype SessionState = SessionState(yawnStatus: bool, yawns: nat, log: seq<LogRecord>)

  /** The state at start-up: not yawning, no yawns, an empty log. */
  const Initial: SessionState := SessionState(false, 0, [])

  predicate IsYawning(f: Frame)
  {
    f.lipDistance > LipThreshold && f.eyeDistance < EyeThreshold
  }

  /** One frame's update of the session state. */
  function Next(s: SessionState, f: Frame): SessionState
  {
    var prevYawnStatus := s.yawnStatus;
    var yawnStatus := IsYawning(f);
    var log := s.log + [LogRecord(f.lipDistance, yawnStatus)];
    var yawns := if prevYawnStatus && !yawnStatus then s.yawns + 1 else s.yawns;
    SessionState(yawnStatus, yawns, log)
  }

  /** The state after processing the frames in order. */
  function Run(s: SessionState, frames: seq<Frame>): SessionState
  {
    if frames == [] then s else Next(Run(s, frames[..|frames| - 1]), frames[|frames| - 1])
  }

  // ---------------------------------------------------------------------
  // Reference definitions over the sequence of per-frame yawning flags
  // ---------------------------------------------------------------------

  /** The yawning flag of each frame on its own. */
  function Statuses(frames: seq<Frame>): seq<bool>
  {
    seq(|frames|, k requires 0 <= k < |frames| => IsYawning(frames[k]))
  }

  /** The log records the frames produce, one per frame. */
  function Records(frames: seq<Frame>): seq<LogRecord>
  {
    seq(|frames|, k requires 0 <= k < |frames| =>
      LogRecord(frames[k].lipDistance, IsYawning(frames[k])))
  }

  /** The last flag of `bs`, or `start` when there is none. */
  function LastOr(start: bool, bs: seq<bool>): bool
  {
    if bs == [] then start else bs[|bs| - 1]
  }

  /** Number of true-to-false steps in the flag sequence `[start] + bs`. */
  function FallingEdges(start: bool, bs: seq<bool>): nat
  {
    if bs == [] then 0
    else
      var init := bs[..|bs| - 1];
      FallingEdges(start, init) + (if LastOr(start, init) && !bs[|bs| - 1] then 1 else 0)
  }

  /** The flag just before position `k` of `bs`: `start` for the first. */
  function FlagBefore(start: bool, bs: seq<bool>, k: nat): bool
    requires k < |bs|
  {
    if k == 0 then start else bs[k - 1]
  }

  /** The positions of `bs` at which the flag falls from true to false. */
  function FallingPositions(start: bool, bs: seq<bool>): set<nat>
  {
    set k: nat | k < |bs| && FlagBefore(start, bs, k) && !bs[k]
  }

  /** Number of false-to-true steps in the flag sequence `[start] + bs`, that
      is, the number of yawn episodes that begin in `bs`. */
  function RisingEdges(start: bool, bs: seq<bool>): nat
  {
    if bs == [] then 0
    else
      var init := bs[..|bs| - 1];
      RisingEdges(start, init) + (if !LastOr(start, init) && bs[|bs| - 1] then 1 else 0)
  }

  /** Number of true flags. */
  function CountTrue(bs: seq<bool>): nat
  {
    if bs == [] then 0 else CountTrue(bs[..|bs| - 1]) + (if bs[|bs| - 1] then 1 else 0)
  }

  // ---------------------------------------------------------------------
  // The session as an object updated in place
  // ---------------------------------------------------------------------

  class Session {
    var yawnStatus: bool
    var yawns: nat
    var log: seq<LogRecord>

    /** The fields as a value. */
    function Current(): SessionState
      reads this
    {
      SessionState(yawnStatus, yawns, log)
    }

    constructor ()
      ensures Current() == Initial
      ensures yawnStatus == false && yawns == 0 && log == []
    {
      yawnStatus := false;
      yawns := 0;
      log := [];
    }

    /** Processes one frame: recompute the flag, log the frame, and count a
        yawn when the flag has just fallen. */
    method Step(lipDistance: int, eyeDistance: real)
      modifies this
      ensures yawnStatus == (lipDistance > LipThreshold && eyeDistance < EyeThreshold)
      ensures yawns == if old(yawnStatus) && !yawnStatus then old(yawns) + 1 else old(yawns)
      ensures log == old(log) + [LogRecord(lipDistance, yawnStatus)]
      ensures Current() == Next(old(Current()), Frame(lipDistance, eyeDistance))
    {
      var prevYawnStatus := yawnStatus;
      if lipDistance > LipThreshold && eyeDistance < EyeThreshold {
        yawnStatus := true;
        log := log + [LogRecord(lipDistance, yawnStatus)];
      } else {
        yawnStatus := false;
        log := log + [LogRecord(lipDistance, yawnStatus)];
      }
      if prevYawnStatus && !yawnStatus {
        yawns := yawns + 1;
      }
    }
  }

  // ---------------------------------------------------------------------
  // Properties of a run
  // ---------------------------------------------------------------------

  /** The flag after a step is a function of that frame alone. */
  lemma StepStatusIsMemoryless(s: SessionState, t: SessionState, f: Frame)
    ensures Next(s, f).yawnStatus == Next(t, f).yawnStatus == IsYawning(f)
  {
  }

  /** The counter goes up by one exactly on a falling edge, and by nothing
      otherwise. */
  lemma StepYawns(s: SessionState, f: Frame)
    ensures Next(s, f).yawns == s.yawns + 1 <==> s.yawnStatus && !IsYawning(f)
    ensures Next(s, f).yawns == s.yawns <==> !(s.yawnStatus && !IsYawning(f))
  {
  }

  /** After a run the flag is that of the last frame, whatever the starting
      state, or the starting flag when there were no frames. */
  lemma RunStatus(s: SessionState, frames: seq<Frame>)
    ensures Run(s, frames).yawnStatus == LastOr(s.yawnStatus, Statuses(frames))
  {
  }

  lemma StatusesPrefix(frames: seq<Frame>, n: nat)
    requires n <= |frames|
    ensures Statuses(frames[..n]) == Statuses(frames)[..n]
  {
  }

  /** The counter grows by the number of falling edges of the flag. */
  lemma {:induction false} RunYawns(s: SessionState, frames: seq<Frame>)
    ensures Run(s, frames).yawns == s.yawns + FallingEdges(s.yawnStatus, Statuses(frames))
  {
    if frames != [] {
      var n := |frames| - 1;
      var init := frames[..n];
      RunYawns(s, init);
      RunStatus(s, init);
      var bs := Statuses(frames);
      StatusesPrefix(frames, n);
      assert bs[..|bs| - 1] == Statuses(init);
    }
  }

  /** The log gains exactly one record per frame, holding that frame's lip
      distance and flag, after the records already there. */
  lemma {:induction false} RunLog(s: SessionState, frames: seq<Frame>)
    ensures Run(s, frames).log == s.log + Records(frames)
  {
    if frames != [] {
      var n := |frames| - 1;
      RunLog(s, frames[..n]);
      assert Records(frames) == Records(frames[..n]) + [Records(frames)[n]];
    }
  }

  /** The counter never decreases along a run. */
  lemma {:induction false} RunYawnsMonotone(s: SessionState, frames: seq<Frame>, i: nat, j: nat)
    requires i <= j <= |frames|
    ensures Run(s, frames[..i]).yawns <= Run(s, frames[..j]).yawns
  {
    if i < j {
      RunYawnsMonotone(s, frames, i, j - 1);
      assert frames[..j][..j - 1] == frames[..j - 1];
    }
  }

  /** The recursive count of falling edges is the number of positions at
      which the flag falls. */
  lemma {:induction false} FallingEdgesCountsPositions(start: bool, bs: seq<bool>)
    ensures FallingEdges(start, bs) == |FallingPositions(start, bs)|
  {
    if bs != [] {
      var n := |bs| - 1;
      var init := bs[..n];
      FallingEdgesCountsPositions(start, init);
      forall k: nat | k < n
        ensures FlagBefore(start, bs, k) == FlagBefore(start, init, k) && bs[k] == init[k]
      {
      }
      assert FlagBefore(start, bs, n) == LastOr(start, init);
      if LastOr(start, init) && !bs[n] {
        assert FallingPositions(start, bs) == FallingPositions(start, init) + {n};
      } else {
        assert FallingPositions(start, bs) == FallingPositions(start, init);
      }
    }
  }

  /** A flag sequence that is false throughout, starting from false, has no
      falling edge. */
  lemma {:induction false} NoYawningNoYawns(bs: seq<bool>)
    requires forall k :: 0 <= k < |bs| ==> !bs[k]
    ensures FallingEdges(false, bs) == 0
  {
    if bs != [] {
      NoYawningNoYawns(bs[..|bs| - 1]);
    }
  }

  /** A run of frames that never meet both thresholds counts no yawn. */
  lemma QuietRunCountsNothing(frames: seq<Frame>)
    requires forall k :: 0 <= k < |frames| ==> !IsYawning(frames[k])
    ensures Run(Initial, frames).yawns == 0
  {
    RunYawns(Initial, frames);
    NoYawningNoYawns(Statuses(frames));
  }

  /** Every yawn episode that has begun is counted once it has ended: the
      counted yawns are the begun episodes, less the one still running. */
  lemma {:induction false} YawnsAreEndedEpisodes(bs: seq<bool>)
    ensures FallingEdges(false, bs) + (if LastOr(false, bs) then 1 else 0) == RisingEdges(false, bs)
  {
    if bs != [] {
      YawnsAreEndedEpisodes(bs[..|bs| - 1]);
    }
  }

  /** There are never more yawns than yawning frames. */
  lemma {:induction false} YawnsAtMostYawningFrames(bs: seq<bool>)
    ensures FallingEdges(false, bs) + (if LastOr(false, bs) then 1 else 0) <= CountTrue(bs)
  {
    if bs != [] {
      YawnsAtMostYawningFrames(bs[..|bs| - 1]);
    }
  }

  /** One yawning frame followed by one quiet frame counts one yawn, and it
      is counted on the quiet frame. */
  lemma SingleYawningFrameCountsOnce()
    ensures Run(Initial, [Frame(30, 0.10)]).yawns == 0
    ensures Run(Initial, [Frame(30, 0.10), Frame(5, 0.30)]).yawns == 1
  {
    var f1, f2 := Frame(30, 0.10), Frame(5, 0.30);
    assert [f1, f2][..1] == [f1];
    assert [f1][..0] == [];
  }

  /** Two yawning frames and then a quiet one count one yawn, on the third
      frame; each threshold alone is not enough to yawn. */
  lemma TwoYawningFramesThenQuiet()
    ensures IsYawning(Frame(30, 0.10))
    ensures !IsYawning(Frame(10, 0.10)) && !IsYawning(Frame(30, 0.20))
    ensures Run(Initial, [Frame(30, 0.10), Frame(30, 0.10)]).yawns == 0
    ensures Run(Initial, [Frame(30, 0.10), Frame(30, 0.10), Frame(5, 0.30)]).yawns == 1
    ensures |Run(Initial, [Frame(30, 0.10), Frame(30, 0.10), Frame(5, 0.30)]).log| == 3
  {
    var f1, f3 := Frame(30, 0.10), Frame(5, 0.30);
    assert [f1, f1, f3][..2] == [f1, f1];
    assert [f1, f1][..1] == [f1];
    assert [f1][..0] == [];
  }
}
