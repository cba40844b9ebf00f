# Yawn detector: lip-gap features and the yawn counter

This project models the decision logic of a webcam yawn detector. A face
landmark detector gives 68 points for each video frame. From them the program
computes a lip distance: it averages the y-coordinates of six upper-lip points
(indices 50–52 and 61–63) and of six lower-lip points (65–67 and 56–58),
truncates each mean to an integer, and takes the absolute difference of the two.
Together with an eye ratio (eyelid distance over eye-corner distance), that
lip distance drives a small state machine:

- the yawning flag is set to `lip_distance > 25 and eye_ratio < 0.16`;
- one log record `(lip_distance, flag)` is appended per frame;
- the yawn counter goes up by one when the flag falls from true to false.

Modules:

- `LipGeometry` (`lip_geometry.dfy`): landmark points, the two lip centres,
  the lip gap. `TopLip` and `BottomLip` are methods that collect the points
  in two loops, as the program does, and are proved against the specification
  functions `TopLipCenter` and `BottomLipCenter`.
- `YawnSession` (`yawn_session.dfy`): the session state as a class `Session`
  with the fields `yawnStatus`, `yawns` and `log` and a `Step` method. The
  functions `Next` and `Run` give the same state as a value. Reference
  definitions over the per-frame flags (`FallingEdges`, `RisingEdges`,
  `CountTrue`) are used to state what the counter means.
- `Detector` (`detector.dfy`): the main loop. It starts a fresh session and
  feeds it, frame by frame, the lip distance and eye ratio of a finite
  sequence of observations.

Modelling choices:

- Python's `int()` of the mean truncates toward zero. `TruncDiv` writes this
  out for both signs, so the lip centres need no precondition beyond a full
  landmark set of at least 68 points. The mean itself is `np.mean`, a
  floating-point computation. For integer coordinates of realistic size, the
  sum is exact and the correctly rounded quotient truncates to the same
  integer as the exact one, so the model uses exact integer arithmetic.
- The lip distance is an integer, since both lip centres are truncated
  before they are subtracted; the whole state machine carries it as `int`.
- The eye ratio is an exact `real` input. Its threshold `0.16` is the exact
  decimal, not the nearest binary double.
- The program's `while True` loop, which ends on a key press, is a loop over
  a finite sequence of observations.
- Truncation toward zero rounds a negative mean up and a positive one down.
  A translation of the landmarks preserves the lip gap when it keeps each
  lip's six y-coordinates on one side of zero. `LipGapTranslationInvariant`
  assumes this: for each lip, all six y-coordinates are non-negative before
  and after the shift, or all are non-positive before and after. Other
  landmarks are not constrained. The condition is sufficient, not necessary:
  some shifts that move a lip's coordinates across zero still leave the gap
  unchanged.
  `LipGapTranslationInvariantNonNegative` is the special case where every
  coordinate stays non-negative. `TranslationAcrossZeroCanChangeGap` shows
  that without the condition the gap can change: a one-pixel shift moves an
  upper-lip mean across zero and changes the gap from 0 to 1.

## Model

| member | source | states |
|---|---|---|
| `LipGeometry.TruncDiv` | detector.py:52 | the integer conversion of a quotient truncates toward zero: `q*b <= a < q*b + b` for `a >= 0`, `q*b - b < a <= q*b` for `a < 0` |
| `LipGeometry.TopLip` | detector.py:45-52 | building the upper-lip list in two loops and reducing it gives the truncated mean y of the landmarks at indices 50, 51, 52, 61, 62, 63 (`TopLipCenter`) |
| `LipGeometry.BottomLip` | detector.py:54-61 | building the lower-lip list in two loops and reducing it gives the truncated mean y of the landmarks at indices 65, 66, 67, 56, 57, 58 (`BottomLipCenter`) |
| `LipGeometry.TopLipCenterIsMean` | detector.py:45-52 | the upper-lip centre equals the truncated sixth of the sum of the y-coordinates at those six indices |
| `LipGeometry.BottomLipCenterIsMean` | detector.py:54-61 | the lower-lip centre equals the truncated sixth of the sum of the y-coordinates at those six indices |
| `LipGeometry.LipGap` | detector.py:68 | the lip distance is non-negative, equals top minus bottom or bottom minus top, and is zero exactly when the two centres coincide |
| `LipGeometry.MouthOpen` | detector.py:66-68 | the computed lip distance from the two lip methods is `LipGap` of the landmarks and is non-negative |
| `LipGeometry.LipCenterReadsOnlyIndices` | detector.py:45-61 | two landmark sets whose y-coordinates agree at the chosen indices give the same centre; no other landmark and no x-coordinate is read |
| `LipGeometry.LipGapReadsOnlyLips` | detector.py:45-68 | the lip distance depends only on the y-coordinates of the twelve lip landmarks |
| `LipGeometry.SumYTranslate` | detector.py:51 | shifting every point by `(dx, dy)` adds `n*dy` to the sum of the y-coordinates of `n` points |
| `LipGeometry.TruncDivShift` | detector.py:52 | for a numerator that stays on the same side of zero (both non-negative or both non-positive), adding `n*d` adds exactly `d` to the truncated quotient by `n` |
| `LipGeometry.LipCenterTranslate` | detector.py:45-61 | a translation by `(dx, dy)` that keeps the selected y-coordinates on one side of zero moves their centre by exactly `dy` |
| `LipGeometry.LipGapTranslationInvariant` | detector.py:45-68 | a translation that keeps each lip's six y-coordinates on one side of zero leaves the lip distance unchanged |
| `LipGeometry.LipGapTranslationInvariantNonNegative` | detector.py:45-68 | a translation that keeps every y-coordinate non-negative leaves the lip distance unchanged |
| `LipGeometry.TranslationAcrossZeroCanChangeGap` | detector.py:52 | a concrete landmark set whose lip distance goes from 0 to 1 under a one-pixel shift that moves an upper-lip mean across zero |
| `YawnSession.Session.constructor` | detector.py:88-91 | the session starts not yawning, with zero yawns and an empty log |
| `YawnSession.Session.Step` | detector.py:98-118 | the new flag is `lipDistance > 25 && eyeDistance < 0.16`; exactly one record with the frame's lip distance and the new flag is appended after the old log; the counter goes up by one exactly when the flag went from true to false; the new state is `Next` of the old, where `Next` is the value-level reference definition of this step |
| `YawnSession.StepStatusIsMemoryless` | detector.py:100-113 | after a step the flag is the threshold test of the frame, whatever the previous state |
| `YawnSession.StepYawns` | detector.py:117-118 | a step adds one to the counter if and only if the flag falls, and leaves it unchanged otherwise |
| `YawnSession.RunStatus` | detector.py:98-118 | after a run the flag is that of the last frame, or the starting flag if there were no frames |
| `YawnSession.RunYawns` | detector.py:98-118 | after a run (`Run`, the value-level reference definition of the main loop: `Next` applied to each frame in order) the counter is the old counter plus the number of true-to-false steps of the flag sequence |
| `YawnSession.RunLog` | detector.py:91-115 | after a run the log is the old log followed by exactly one record per frame, in order |
| `YawnSession.RunYawnsMonotone` | detector.py:117-118 | the counter never decreases from an earlier point of a run to a later one |
| `YawnSession.FallingEdgesCountsPositions` | detector.py:98-118 | the recursive falling-edge count equals the number of positions whose flag is false while the flag before it is true |
| `YawnSession.NoYawningNoYawns` | detector.py:88-118 | a flag sequence that is always false, starting from false, has no falling edge |
| `YawnSession.QuietRunCountsNothing` | detector.py:88-118 | from the start state, frames that never meet both thresholds leave the counter at 0 |
| `YawnSession.YawnsAreEndedEpisodes` | detector.py:117-118 | the falling edges of a flag sequence from false (the counter, by `RunYawns`) number the yawn episodes begun, less one if an episode is still running: each episode is counted once, when it ends |
| `YawnSession.YawnsAtMostYawningFrames` | detector.py:98-118 | the falling edges of a flag sequence from false, plus one for a running episode, never exceed the number of yawning frames |
| `YawnSession.SingleYawningFrameCountsOnce` | detector.py:98-118 | one yawning frame counts nothing yet; one quiet frame after it counts one yawn |
| `YawnSession.TwoYawningFramesThenQuiet` | detector.py:98-118 | (30, 0.10) yawns; (10, 0.10) and (30, 0.20) do not; two yawning frames then a quiet one count one yawn, at the third frame, with three log records |
| `Detector.DetectYawns` | detector.py:87-118 | driving a fresh session over the observations gives the last frame's flag, a yawn count equal to the number of falling edges of the per-frame flags (also as the size of the set of positions where the flag falls), and a log of exactly one record per observation with its lip distance and flag |

## Left out

- Face detection and landmark regression (`getting_landmarks`, the predictor and detector setup, detector.py:20-26) are calls into a foreign library. A landmark set of at least 68 points is an input, and that precondition also stands for the unchecked `rects[0]` when no face is found.
- `closing_of_eyes` (detector.py:71-76) uses floating-point Euclidean distances and can divide by zero. Its result is an exact `real` input to the session step.
- `annotate_landmarks` and all drawing, display and key polling (detector.py:28-39, 105-110, 120-124) are image rendering and user interface. This includes the displayed "Yawn Count" text.
- Video capture and release (detector.py:87, 94, 131-132) and writing the log to `yawn_info.csv` (detector.py:90, 126-129) are I/O. The log is modelled as the in-memory sequence that would be written.
- The float rounding of `np.mean` is not modelled. The model uses the exact integer mean, truncated toward zero.
