# Depth histogram and skeleton overlay: a Dafny model

This project models the logic of a small OpenNI/OpenCV demo program (`main.cpp`).
The program replays a recorded depth capture and tracks the users in it. On every
frame it turns the 16-bit depth image into a red intensity image by histogram
equalisation. It drives each user's calibration through tracker callbacks, and it
draws a partial stick figure over every tracked user. Keys switch the overlay off
and on, and ESC quits.

The model has four modules, one per concern of the source:

- `Histogram` (`histogram.dfy`) is the per-frame depth rendering, written in place
  like the source. `array<int>` holds the reused `MAX_DEPTH` table (10000 entries)
  and the three image planes; the frame is a row-major `seq<int>` of
  `width * height` samples. Methods clear the table, count the non-zero samples
  row by row, prefix-sum the table, equalise it and fill the planes row by row.
  Each is proved against specification functions: `Tally` (counter per depth),
  `Cumulative` (prefix sum), `Equalised` (final table) and `Intensity` (red value
  of a pixel). Lemmas state what the equalised image means: it ranks depths, it
  stays in [0, 255], within a frame a nearer pixel is never darker, and pixels without a reading are black.
- `Calibration` (`calibration.dfy`) holds the seven tracker callbacks. They form one
  pure function `Handle(needPose, pose, event)` that returns the commands the
  callback issues. The source keeps no per-user state, and neither does the model.
  A user's lifecycle phase (`Idle`, `AwaitingPose`, `Calibrating`, `Tracking`) is
  derived from the commands issued for it. Lemmas prove that the commands follow
  a reference transition table, one notification at a time and over whole runs.
- `Overlay` (`overlay.dfy`) gives the segments drawn for the users of one frame. It
  works from the nine projected integer joint points of each user.
- `Control` (`control.dfy`) holds the loop-local `endit`/`track` flags and the two
  key polls of every pass of the display loop. `ConsoleKey` and `WindowKey` are
  the two polls, `NextFlags` and `Pass` are one pass, and `Session` runs the
  loop over a sequence of passes.

## Model

| member | source | states |
|---|---|---|
| `Histogram.ClearTable` | main.cpp:268 | every table entry is 0 afterwards |
| `Histogram.CountRow` | main.cpp:273-280 | after one row, the running count and every depth counter cover exactly the samples scanned so far |
| `Histogram.CountSamples` | main.cpp:270-281 | returns the number of non-zero samples; entry d holds the number of non-zero samples equal to d, and entry 0 stays 0 |
| `Histogram.PrefixSum` | main.cpp:282-285 | entry d becomes the sum of the counters of depths 0..d |
| `Histogram.Equalise` | main.cpp:286-293 | with readings, every entry from depth 1 on becomes the level of its prefix sum; with none, the table is left as it is |
| `Histogram.FillRow` | main.cpp:299-310 | one row: blue 0, green 0, red the byte of the table entry of the pixel's depth; no other pixel changes |
| `Histogram.FillPlanes` | main.cpp:296-313 | every pixel of the frame gets blue 0, green 0 and red the byte of its depth's table entry |
| `Histogram.RenderDepth` | main.cpp:267-313 | the whole pass: the table ends equalised, and every pixel holds (0, 0, its intensity) |
| `Histogram.TallyOfZero` | main.cpp:275-279 | depth-0 samples are never counted |
| `Histogram.CumulativeIsRank` | main.cpp:282-285 | the prefix sum at d is the rank of d: the number of non-zero samples at most d |
| `Histogram.CumulativeShape` | main.cpp:282-285 | the prefix-summed table is non-decreasing, and its last entry equals the number of non-zero samples |
| `Histogram.Level` | main.cpp:291 | the level of a count c out of N readings is 256 * (N - c) / N truncated: N * l <= 256 * (N - c) < N * (l + 1); it lies in [0, 256] for 0 <= c <= N (see `LevelBounds`, `LevelNonIncreasing`) |
| `Histogram.Byte` | main.cpp:305-308 | the store into an 8-bit plane element: always in [0, 256), and a value already in [0, 256) is kept unchanged (see `IntensityBounds`) |
| `Histogram.LevelBounds` | main.cpp:291 | a count c with 1 <= c <= N gives a level in [0, 255], and c == N gives 0 |
| `Histogram.LevelNonIncreasing` | main.cpp:291 | a larger count never gives a larger level |
| `Histogram.ZeroFrameTable` | main.cpp:286-293 | an all-zero frame leaves every table entry 0, with no division |
| `Histogram.ZeroDepthEntry` | main.cpp:282-292 | entry 0 is 0 after the whole table computation |
| `Histogram.PresentDepthLevel` | main.cpp:288-292 | every depth present in the frame has an entry in [0, 255] (never 256) |
| `Histogram.EqualisedNonIncreasing` | main.cpp:288-292 | with readings, the entries are non-increasing over depths 1..MAX_DEPTH-1 |
| `Histogram.LargestDepthLevel` | main.cpp:288-292 | the largest depth in the frame maps to 0 |
| `Histogram.IntensityBounds` | main.cpp:305-308 | each red value is in [0, 255] and equals the table entry (the byte store never wraps); it is 0 for an all-zero frame and for a pixel without reading |
| `Histogram.RankOfNearer` | main.cpp:270-285 | a pointwise nearer frame with the same zero pixels has the same reading count and ranks every depth at least as high |
| `Histogram.NearerFrameLevel` | main.cpp:282-292 | in such a nearer frame, every fixed depth value gets an entry no higher |
| `Histogram.SmallFrameExample` | main.cpp:267-313 | the frame [0, 500, 1000, 0] has 2 readings and red values 0, 128, 0, 0 |
| `Calibration.BeginCalibration` | main.cpp:63-73 | one command for the user: start pose detection with the configured pose when a pose is needed, else a forced calibration request |
| `Calibration.Handle` | main.cpp:40-128 | at most two commands; all of them are for the notified user; pose detection only when a pose is needed, with the configured pose; calibration always forced; tracking starts exactly on successful calibration; pose detection stops exactly on a detected pose in a session that needs one |
| `Calibration.RunSnoc` | main.cpp:57-128 | the run's commands are each notification's commands, in notification order |
| `Calibration.NewUserAndRetryAgree` | main.cpp:57-126 | a new user and a failure other than a manual abort issue the same single command |
| `Calibration.SilentEvents` | main.cpp:40-128 | exactly lost user, exit, re-entry, calibration start, manual abort, and a detected pose in a session without a pose, issue nothing |
| `Calibration.PoseDetectedOrder` | main.cpp:83-91 | when a pose is needed, a detected pose issues exactly stop pose detection, then request calibration |
| `Calibration.PoseIgnoredWithoutPose` | main.cpp:197-211 | when no pose is needed, the detected-pose callback is never registered, so a detected pose issues nothing |
| `Calibration.CalibrationSuccess` | main.cpp:104-109 | successful calibration issues only start tracking |
| `Calibration.RunAddressesUsers` | main.cpp:57-128 | every command of a run of one user's notifications is addressed to that user |
| `Calibration.HandleFollowsTable` | main.cpp:57-128 | the commands of each notification move the derived phase exactly as the lifecycle table says |
| `Calibration.RunFollowsTable` | main.cpp:57-128 | over a whole run, the derived phase equals the table replayed over the notifications |
| `Calibration.TraceIsReplay` | main.cpp:57-128 | the k-th phase of the step-by-step trace is the table replayed over the first k + 1 notifications |
| `Calibration.TraceFollowsRun` | main.cpp:57-128 | the k-th phase of the trace is the phase the commands issued for the first k + 1 notifications lead to, so the trace lemmas are about the issued commands |
| `Calibration.TrackingNeedsCalibrating` | main.cpp:100-109 | if the tracker keeps its protocol, a user reaches Tracking only after passing through Calibrating |
| `Calibration.TraceCons` | main.cpp:57-128 | one notification adds one step to the phase trace and to the protocol check |
| `Calibration.PoseSuccessPath` | main.cpp:57-109 | with a pose, the success path keeps the protocol and visits AwaitingPose, Calibrating, Calibrating, Tracking |
| `Calibration.PoseSuccessCommands` | main.cpp:57-109 | with a pose, the success path issues start pose detection, stop pose detection, request calibration, start tracking |
| `Calibration.DirectSuccessPath` | main.cpp:57-109 | without a pose, the success path visits Calibrating, Calibrating, Tracking |
| `Calibration.DirectSuccessCommands` | main.cpp:57-109 | without a pose, the success path issues request calibration, then start tracking |
| `Calibration.NewUserRestarts` | main.cpp:57-81 | after any run, a loss followed by a new user issues a fresh calibration start and leads to AwaitingPose (pose needed) or Calibrating |
| `Calibration.ManualAbortIsStateless` | main.cpp:110-127 | a manual abort issues nothing, and a later failure of another kind is still retried |
| `Overlay.StickFigure` | main.cpp:392-404 | each tracked user gets exactly six segments, one per bone |
| `Overlay.Tracked` | main.cpp:318-321 | the users kept are exactly the reported users that are being tracked |
| `Overlay.Overlay` | main.cpp:316-406 | no segment while the overlay is off; otherwise six segments per tracked user |
| `Overlay.BonesTopology` | main.cpp:392-404 | the bones, in drawing order: head-neck, neck-right collar, right collar-right elbow, right elbow-right hand, neck-torso, torso-right collar; no left joint is used; every other joint is |
| `Overlay.LeftSideNotDrawn` | main.cpp:372-404 | the left collar, elbow and hand points have no effect on what is drawn |
| `Overlay.SegmentEnds` | main.cpp:392-404 | every segment joins two distinct drawn (non-left) joints |
| `Overlay.OverlayIsTrackedFigures` | main.cpp:316-321 | with the overlay on, the segments are the stick figures of the tracked users, in the order the users are reported |
| `Overlay.OverlayBlocks` | main.cpp:316-406 | the k-th block of six segments is the stick figure of the k-th tracked user |
| `Control.ConsoleKey` | main.cpp:248-254 | the console key: `endit` flips exactly on ESC and `track` flips exactly on space; any other key or no key keeps both (see `SpaceFlipsTrack`, `OtherKeysIgnored`) |
| `Control.WindowKey` | main.cpp:410-416 | the window key, read by its low byte: ESC breaks, space flips `track`, any other code keeps the flags (see `WindowKeyLowByte`, `OtherKeysIgnored`) |
| `Control.NextFlags` | main.cpp:245-416 | the flags after one pass: the loop stops exactly when `endit` is set by the console key or the window key reads ESC; otherwise it goes on with `endit` false and `track` flipped once per space press (see `PassWithoutEscape`) |
| `Control.Pass` | main.cpp:245-416 | one pass: six segments per tracked user are drawn when `track` holds after the console key, none otherwise; entered with `endit` false, it ends the loop exactly when either poll reads ESC (see `EscapeEndsLoop`, `OverlayOnlyWhenTracking`) |
| `Control.Session` | main.cpp:243-418 | the loop over successive passes: when it is still running after at least one pass, `endit` is false; started running, passes without ESC never stop it (see `TrackParity`, `OverlayAfterSpaces`) |
| `Control.LowByte` | main.cpp:410 | the polled key code is read by its low byte, in [0, 256) and congruent to the code modulo 256 |
| `Control.SpaceFlipsTrack` | main.cpp:248-416 | space flips `track` and nothing else, from the console key (lines 248-254) and from the window key (lines 412-416); two presses restore it |
| `Control.OtherKeysIgnored` | main.cpp:248-254 | no key, or any key other than ESC and space, changes nothing |
| `Control.EscapeEndsLoop` | main.cpp:245-416 | a pass ends the loop exactly when either poll reads ESC; the frame of that pass is still drawn, with the flag set by the console key |
| `Control.WindowKeyLowByte` | main.cpp:410-416 | a window code whose low byte is ESC breaks, and one whose low byte is space flips `track`, for every code; 283 and -224 act as ESC and space |
| `Control.OverlayOnlyWhenTracking` | main.cpp:316-321 | a pass draws nothing when `track` is off after the console key, and six segments per tracked user when it is on |
| `Control.PassWithoutEscape` | main.cpp:245-416 | a pass without ESC continues, with `track` flipped once per space press |
| `Control.TrackParity` | main.cpp:243-416 | over passes without ESC the loop keeps running, and `track` is the starting value flipped once per space press |
| `Control.OverlayAfterSpaces` | main.cpp:243-416 | from the loop's start (`endit` false, `track` true), after passes without ESC the overlay is on exactly when an even number of spaces was pressed |

## Points where the code's behaviour is easy to misread

- Manual abort. The message at main.cpp:116 says "stop attempting to
  calibrate", but the callbacks keep no per-user state. A manual abort issues
  nothing and returns (main.cpp:114-118), and a later failure of another kind
  would still be retried (`Calibration.ManualAbortIsStateless`). In the
  derived phase view, a manual abort leaves the phase where it was.
- Nearer frames. The table entry of a depth value is a decreasing function of
  its rank: the number of non-zero samples at or below it (main.cpp:282-292).
  In a pointwise nearer frame more samples lie at or below any fixed depth, so
  that depth value's entry is never higher (`Histogram.NearerFrameLevel`).
  Within one frame, a nearer pixel is never darker
  (`Histogram.EqualisedNonIncreasing`).
- Rounding. The level is truncated by the `(unsigned int)` cast at
  main.cpp:291, not rounded, so `Histogram.Level` truncates.
- Pose callback. The detected-pose callback is registered only when the
  tracker needs a calibration pose (main.cpp:197-211). In a session without a
  pose, a detected pose issues nothing (`Calibration.PoseIgnoredWithoutPose`).

## Left out

- OpenNI setup and teardown are foreign SDK calls and are not modelled: context
  initialisation, opening the recording, node lookup and creation, capability
  checks, the `CHECK_RC` exits, callback registration (apart from the condition
  on the pose callback, which `Calibration.Handle` models) and the release calls
  (main.cpp:131-226, 419-422).
- The per-frame SDK calls `WaitOneUpdateAll`, `GetUsers`, `GetCoM`,
  `GetSkeletonJoint` and `IsTracking` are left out. Their results are inputs: the
  frame samples, and a `UserView` per reported user with its tracking flag and
  projected joints.
- `Overlay.Overlay` takes the reported users as given. The `MAX_NUM_USERS`
  (15) capacity of the user buffer limits what the SDK can report, and the model
  does not restate that bound.
- The real-world-to-projective transform and the truncation of its float results
  to `int` are not modelled (main.cpp:327-388). The nine projected integer points
  of each user are inputs.
- OpenCV is not modelled: matrix allocation, `cv::merge`, rasterising
  `cv::line`, `cv::imshow` and the 33 ms wait of `cv::waitKey`. The model
  produces the plane contents and the list of segments; the keys are inputs.
- Logging, timestamps, `fileExists` and the centre-of-mass print are not
  modelled.
- The re-entry callback is registered through the exit registration
  (main.cpp:189). Both handlers only log, so which one runs makes no difference
  to the commands.
- The missing `)` at main.cpp:223 is a syntax error, not behaviour.
- `Histogram.Level`: the table is `float` in the source, and the model uses exact
  integers. Counts are exact, and `256 * (1 - c / N)` becomes
  `(256 * (N - c)) / N`, which truncates like the cast. This idealises single
  precision. The single-precision value is off from the exact one by at most
  about 2.3e-5, and the exact value's fractional part is a multiple of 1/N. So
  for N above roughly 2^15 non-zero samples, which an ordinary QVGA or VGA frame
  reaches, the code's level can differ by one from the model's.
- `Histogram.InRange`: every histogram method requires each sample to be below
  `MAX_DEPTH` (10000). The source does not check this, and at main.cpp:277 a
  sample of `MAX_DEPTH` or more would write outside the table. The model does
  not cover such frames.
- `Histogram.IntensityBounds`: the stores `float` to `int` to `uchar` are
  modelled as `% 256` on the integer entry. For depths absent from the frame the
  entry can be 256, but such entries are never read.
- Session configuration (`g_bNeedPose`, `g_strPose`) is read once from the
  tracker. It appears as the `needPose` and `pose` parameters of the handlers.
- `Calibration.TrackingNeedsCalibrating` holds only under a stated assumption
  about the tracker. The tracker must report a detected pose only to a user
  waiting for one, and a calibration start or end only to a user being
  calibrated. The handlers cannot enforce this, because they keep no state.
