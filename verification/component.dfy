/** The state the pose-detection component keeps between renders, and the
    three ways it changes: a classified camera frame, a window resize and the
    "Save" button that stores the current pose as the ideal posture. */
module Component {
  import opened Wrappers
  import opened Posture
  import opened Viewport

  /** The component's state: view size, the loading flag, the latest pose,
      the saved ideal pose and the displayed status text. */
  datatype State = State(
    dimensions: Dimensions,
    loading: bool,
    current: Option<Pose>,
    ideal: Option<Pose>,
    status: string)

  /** The state before the first frame: 640 by 480, loading, nothing
      detected, no ideal posture and an empty status text. */
  const Initial: State := State(Dimensions(640, 480.0), true, None, None, "")

  /** The detector reports a list of poses; the component destructures its
      first element, which is absent when the list is empty. */
  function FirstPose(poses: seq<Pose>): (r: Option<Pose>)
    ensures r.None? <==> |poses| == 0
    ensures r.Some? ==> r.value == poses[0]
  {
    if |poses| == 0 then None else Some(poses[0])
  }

  /** One animation frame: record the first detected pose as the current
      posture, show its classification and clear the loading flag. */
  function OnFrame(s: State, poses: seq<Pose>): (t: State)
    ensures t.current == FirstPose(poses)
    ensures t.status == Message(Evaluate(FirstPose(poses)))
    ensures |poses| == 0 ==> t.status == Message(NoPoseDetected)
    ensures !t.loading
    ensures t.ideal == s.ideal && t.dimensions == s.dimensions
  {
    var pose := FirstPose(poses);
    s.(current := pose, status := Message(Evaluate(pose)), loading := false)
  }

  /** The "Save" button: the ideal posture becomes the current posture,
      absent or not, and nothing else changes. */
  function SaveIdealPosture(s: State): (t: State)
    ensures t.ideal == s.current
    ensures t.(ideal := s.ideal) == s
  {
    s.(ideal := s.current)
  }

  /** A window resize: only the view size changes. */
  function OnResize(s: State, innerWidth: int): (t: State)
    ensures t.dimensions.width <= MaxWidth
    ensures t.dimensions == FitToWindow(innerWidth)
    ensures t.(dimensions := s.dimensions) == s
  {
    s.(dimensions := FitToWindow(innerWidth))
  }

  /** The state starts at the sizing rule's result for a 640-wide window.
      On mount the layout effect sizes the view for the actual window
      before any frame can arrive, so the first frame sees that fitted size;
      it clears loading, keeps the size and leaves the ideal absent. */
  lemma InitialState(innerWidth: int, poses: seq<Pose>)
    ensures Initial.dimensions == FitToWindow(MaxWidth)
    ensures Initial.loading && Initial.current.None? && Initial.ideal.None? && Initial.status == ""
    ensures var t := OnFrame(OnResize(Initial, innerWidth), poses);
      && !t.loading
      && t.dimensions == FitToWindow(innerWidth)
      && t.current == FirstPose(poses)
      && t.ideal.None?
  {
  }

  /** Saving twice in a row is the same as saving once. */
  lemma SaveIdealPostureIdempotent(s: State)
    ensures SaveIdealPosture(SaveIdealPosture(s)) == SaveIdealPosture(s)
  {
  }

  /** Saving right after a frame with no detected pose clears the ideal. */
  lemma SaveAfterEmptyFrame(s: State)
    ensures SaveIdealPosture(OnFrame(s, [])).ideal == None
  {
  }

  /** The saved ideal posture is never consulted by classification: two
      states differing only in their ideal show the same status after any
      frame, and a frame leaves the ideal as it was. */
  lemma IdealNeverConsulted(s: State, ideal: Option<Pose>, poses: seq<Pose>)
    ensures OnFrame(s.(ideal := ideal), poses).status == OnFrame(s, poses).status
    ensures OnFrame(SaveIdealPosture(s), poses).ideal == s.current
  {
  }
}
