/** The per-frame orchestration of auralize.py: `process_frame` emits audio
    only when the detector returned boxes, and the main loop hands every
    frame that is not None to `process_frame` until the quit key is read. */
module Auralize {
  import opened Common
  import opened PositionFusion

  /** The observable actions of one `process_frame` call, in order. */
  datatype Effect =
    | ShowDetections      // "Auralizer" window with the annotated detector image
    | ShowFrame           // "Auralizer" window with the undistorted frame
    | ShowDepth           // one of the two depth-map debug windows
    | SetPosition(pos: Position)
    | Play

  predicate EmitsPosition(effects: seq<Effect>)
  {
    exists k :: 0 <= k < |effects| && effects[k].SetPosition?
  }

  predicate PlaysSound(effects: seq<Effect>)
  {
    exists k :: 0 <= k < |effects| && effects[k] == Play
  }

  /** `process_frame` after detection: `annotated` is the shape of the
      detector's image, `boxes` its boxes, and `depth` the depth estimate
      already resized to the frame (used only when there are boxes). */
  function ProcessFrame(annotated: Shape, boxes: seq<Box>, depth: DepthMap): (effects: seq<Effect>)
    requires |boxes| > 0 ==> annotated.dim0 > 0 && annotated.dim1 > 0 && ValidDepth(depth)
    ensures EmitsPosition(effects) <==> |boxes| > 0
    ensures PlaysSound(effects) <==> |boxes| > 0
    ensures |boxes| > 0 ==>
              && |effects| >= 2
              && effects[|effects| - 2] == SetPosition(GetPositionBbox(annotated, boxes, depth))
              && effects[|effects| - 1] == Play
              && forall k :: 0 <= k < |effects| - 2 ==> !effects[k].SetPosition? && effects[k] != Play
    ensures |boxes| == 0 ==> effects == [ShowFrame]
  {
    if |boxes| > 0 then
      var effects := [ShowDetections, ShowDepth, ShowDepth,
                      SetPosition(GetPositionBbox(annotated, boxes, depth)), Play];
      assert effects[3].SetPosition? && effects[4] == Play;
      effects
    else
      [ShowFrame]
  }

  /** One pass of the main loop: the frame source's answer and the code
      `cv2.waitKey(1)` returned (-1 when no key was pressed). */
  datatype Tick<F> = Tick(frame: Option<F>, key: int)

  /** `key & 0xFF == ord('q')`; Dafny's `%` agrees with Python's `& 0xFF`
      for negative codes as well. */
  predicate QuitKey(key: int)
  {
    key % 256 == 113
  }

  /** Number of ticks the loop runs: up to and including the first quit key. */
  function TicksRun<F>(ticks: seq<Tick<F>>): (n: nat)
    ensures n <= |ticks|
    ensures forall k :: 0 <= k < n - 1 ==> !QuitKey(ticks[k].key)
    ensures n < |ticks| ==> n > 0 && QuitKey(ticks[n - 1].key)
  {
    if |ticks| == 0 then 0
    else if QuitKey(ticks[0].key) then 1
    else 1 + TicksRun(ticks[1..])
  }

  function FramesOf<F>(ticks: seq<Tick<F>>): (r: seq<Option<F>>)
    ensures |r| == |ticks|
    ensures forall k :: 0 <= k < |ticks| ==> r[k] == ticks[k].frame
  {
    seq(|ticks|, k requires 0 <= k < |ticks| => ticks[k].frame)
  }

  /** The main loop: the frames handed to `process_frame`, in order. A tick
      whose key is the quit key still processes its frame, then the loop
      ends. */
  function RunLoop<F>(ticks: seq<Tick<F>>): (processed: seq<F>)
    ensures processed == Present(FramesOf(ticks[..TicksRun(ticks)]))
  {
    if |ticks| == 0 then []
    else
      var head := if ticks[0].frame.Some? then [ticks[0].frame.value] else [];
      var rest := if QuitKey(ticks[0].key) then [] else RunLoop(ticks[1..]);
      assert FramesOf(ticks[..TicksRun(ticks)]) == [ticks[0].frame] + FramesOf(ticks[1..][..TicksRun(ticks) - 1]);
      head + rest
  }

  /** Without a quit key every present frame is processed, in order, and no
      absent one. */
  lemma NoQuitProcessesEveryPresentFrame<F>(ticks: seq<Tick<F>>)
    requires forall k :: 0 <= k < |ticks| ==> !QuitKey(ticks[k].key)
    ensures RunLoop(ticks) == Present(FramesOf(ticks))
  {
    assert ticks[..TicksRun(ticks)] == ticks;
  }
}
