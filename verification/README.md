# PoseMax posture classifier — a Dafny model

PoseMax shows a webcam feed and, on every animation frame, runs a
single-pose detector and classifies the user's sitting posture from three
keypoints: the nose and the two shoulders. This project models the decision
logic of the `PoseDetection` component:

- `Posture`: keypoints, poses and the six status outcomes; lookup of a
  keypoint by name (first match wins); the cascade that turns the nose's
  sideways offset from the shoulder midpoint (threshold 30, strict `>`) and
  the shoulders' vertical gap (threshold 10, strict `>`) into a status; and
  the text shown for each status.
- `PostureProperties`: lemmas relating several classifications — left/right
  symmetry, independence from the nose's height and from all scores, the
  strictness of both thresholds, worked examples.
- `Viewport`: the window-sizing rule (width capped at 640, 4:3 ratio).
- `Component`: the component's state and its three updates — one classified
  frame, a window resize, and the "Save" button storing the current pose as
  the ideal posture.
- `Wrappers`: the `Option` type standing for JavaScript's `null`/`undefined`.

Coordinates are exact `real`s. The detector is an opaque source of a list of
poses, passed in as a parameter; the window width is likewise a parameter.

The classifier compares each frame with fixed absolute thresholds, 30
horizontally and 10 vertically, and reports both signals together as one
message ("Leaning forward and tilting"). It keeps no history between frames.
The saved ideal posture is only displayed; the classifier never reads it.

## Model

| member | source | states |
|---|---|---|
| Posture.Find | src/app/_components/PoseDetection.tsx:68-74 | lookup misses exactly when no keypoint has the name; otherwise it returns the keypoint at the first index carrying that name |
| Posture.Verdict | src/app/_components/PoseDetection.tsx:81-101 | with the three keypoints found, "Leaning forward and tilting" iff both signals, "Leaning forward" iff leaning only, "Tilting" iff tilting only, "Good posture" iff neither; leaning means the nose is more than 30 to either side of the shoulder midpoint, tilting means one shoulder is more than 10 above the other |
| Posture.Evaluate | src/app/_components/PoseDetection.tsx:61-79 | "No pose detected" exactly when there is no pose; for a present pose, "Essential keypoints missing" exactly when nose, left_shoulder or right_shoulder has no keypoint of that name |
| Posture.Message | src/app/_components/PoseDetection.tsx:63-100 | each status shows its own text: "No pose detected", "Essential keypoints missing", "Leaning forward and tilting", "Leaning forward", "Tilting", "Good posture", and each text comes only from its status |
| PostureProperties.FindReturnsFirst | src/app/_components/PoseDetection.tsx:68-74 | lookup returns precisely the keypoint at the first index with the requested name, even when later keypoints share it |
| PostureProperties.EvaluateUsesFirstKeypoints | src/app/_components/PoseDetection.tsx:68-101 | with all three names present, the status is the cascade applied to the first nose, first left shoulder and first right shoulder |
| PostureProperties.MessagesAreDistinct | src/app/_components/PoseDetection.tsx:61-102 | the six statuses display six different texts, so the text identifies the outcome |
| PostureProperties.VerdictSymmetric | src/app/_components/PoseDetection.tsx:81-91 | exchanging the two shoulders given to the cascade leaves the status unchanged |
| PostureProperties.VerdictReadsCoordinates | src/app/_components/PoseDetection.tsx:81-91 | the cascade depends only on the nose's x and both shoulders' x and y |
| PostureProperties.ThresholdsAreStrict | src/app/_components/PoseDetection.tsx:87-91 | an offset of exactly 30 with a gap of exactly 10 is good posture |
| PostureProperties.PastThresholdsIsBad | src/app/_components/PoseDetection.tsx:87-91 | an offset above 30 or a gap above 10 is never good posture |
| PostureProperties.SwapShouldersPreservesStatus | src/app/_components/PoseDetection.tsx:68-91 | relabelling every left shoulder as right and vice versa never changes the status of a pose |
| PostureProperties.StatusIgnoresNoseHeightAndScores | src/app/_components/PoseDetection.tsx:81-91 | two poses with the same keypoint names and x values and the same y values apart from nose keypoints get the same status, whatever their scores |
| PostureProperties.SampleStatuses | src/app/_components/PoseDetection.tsx:81-101 | with shoulders at x 80 and 120, a nose at x 100 or 130 is good posture, at 131 or 69 it is leaning forward; dropping the right shoulder gives "Essential keypoints missing" |
| Viewport.FitToWindow | src/app/_components/PoseDetection.tsx:142-148 | the width is the smaller of the window width and 640, and width to height is 640 to 480 |
| Viewport.FitToWindowIdempotent | src/app/_components/PoseDetection.tsx:143-146 | a window at most 640 wide keeps its width, and resizing to an already-fitted width changes nothing |
| Viewport.FitToWindowMonotone | src/app/_components/PoseDetection.tsx:143-146 | a wider window never yields a smaller width or height |
| Component.FirstPose | src/app/_components/PoseDetection.tsx:109 | the destructured first pose is absent exactly when the detector reports no pose |
| Component.OnFrame | src/app/_components/PoseDetection.tsx:108-117 | a frame stores the first detected pose as current, shows its status text ("No pose detected" for an empty detection), clears loading, and keeps the ideal posture and view size |
| Component.SaveIdealPosture | src/app/_components/PoseDetection.tsx:18-20 | the ideal posture becomes the current posture, absent or not, and nothing else changes |
| Component.OnResize | src/app/_components/PoseDetection.tsx:142-149 | a resize sets the view size from the sizing rule and changes nothing else |
| Component.InitialState | src/app/_components/PoseDetection.tsx:10-15 | the state starts at 640 by 480, which is the sizing rule's result for a 640-wide window, loading, with no pose, no ideal posture and an empty status; since the layout effect sizes the view for the actual window at mount (line 151) before any frame arrives, the first frame sees the fitted size of that window, clears loading, stores the first detected pose and leaves the ideal absent |
| Component.SaveIdealPostureIdempotent | src/app/_components/PoseDetection.tsx:18-20 | pressing "Save" twice in a row equals pressing it once |
| Component.SaveAfterEmptyFrame | src/app/_components/PoseDetection.tsx:109-111 | saving after a frame with no pose stores an absent ideal posture |
| Component.IdealNeverConsulted | src/app/_components/PoseDetection.tsx:61-113 | the status after a frame does not depend on the saved ideal posture, and a frame does not alter it |

## Left out

- Camera setup through `getUserMedia` and the video metadata promise: browser I/O.
- TensorFlow backend selection and MoveNet detector creation and inference: foreign library calls; the detector's output is a parameter of `Component.OnFrame`.
- The `requestAnimationFrame` loop, React state batching and effects: scheduling and framework plumbing; one frame step is modelled.
- Component.OnResize: "nothing else changes" holds of the modelled state only. In the component, a size change re-runs the effect keyed on the view's height and width (PoseDetection.tsx:139). That re-acquires the camera and starts a second detection loop, and the earlier loop is never stopped; this is effect plumbing and not modelled.
- Registering and removing the window resize listener: DOM I/O; the window width is a parameter of `Component.OnResize`. The sizing call made once at mount (PoseDetection.tsx:151) is modelled as `OnResize` applied to `Initial`, which `Component.InitialState` uses as the state the first frame sees.
- Rendering of the status, the video and the saved ideal posture's keypoint list, and the page layout: presentation only.
- NaN and infinite coordinates: floating-point behaviour; coordinates are exact reals.
- Posture.Verdict: computes the midpoint, offset and gap (PoseDetection.tsx:81-85) in exact arithmetic. With double-precision rounding, a value that is exactly 30 or 10 on paper can come out slightly above or below, and so flip the verdict at the boundary; the model does not capture this.
- The window width is an unbounded integer; widths are never negative in a browser, but the model does not require it.
- Optional detector fields the component never reads (a keypoint's `z`, a pose's box, id and 3D keypoints) are not part of the data model.
- Component.SaveIdealPosture: stores the current pose of the state it is given; that React hands the click handler the pose of the latest render, possibly one frame behind the detector, is framework scheduling and not modelled.
