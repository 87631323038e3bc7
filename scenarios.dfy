/** What a user of the element can rely on, stated for short sequences of
    operations on a freshly created element: the property round-trips, the property has no
    effect on drawing, the surface follows a change of frame size, and a
    whole lifetime of frames releases every surface it creates. */
module OverlayScenarios {
  import opened Structures
  import opened FaceDecoder
  import opened ImageOverlayMetadata

  /** Reading the property after writing `b` gives `b`. */
  method SetThenGet(b: bool) returns (r: Option<bool>)
    ensures r == Some(b)
  {
    var overlay := new ImageOverlay();
    overlay.SetProperty(PropShowDebugInfo, b);
    r := overlay.GetProperty(PropShowDebugInfo);
  }

  /** A new element reports the property as false. */
  method DefaultProperty() returns (r: Option<bool>)
    ensures r == Some(false)
  {
    var overlay := new ImageOverlay();
    r := overlay.GetProperty(PropShowDebugInfo);
  }

  /** Writing an unknown property id leaves the stored flag as it was. */
  method UnknownIdKeepsProperty(b: bool, id: nat, v: bool) returns (r: Option<bool>)
    requires id != PropShowDebugInfo
    ensures r == Some(b)
  {
    var overlay := new ImageOverlay();
    overlay.SetProperty(PropShowDebugInfo, b);
    overlay.SetProperty(id, v);
    r := overlay.GetProperty(PropShowDebugInfo);
  }

  /** Two elements that differ only in the property draw the same rectangles for a frame. */
  method PropertyDoesNotAffectDrawing(frame: Frame, flag: bool) returns (withFlag: seq<DrawOp>, without: seq<DrawOp>)
    ensures withFlag == without
    ensures withFlag == FrameDraws(frame)
  {
    var a := new ImageOverlay();
    a.SetProperty(PropShowDebugInfo, flag);
    var _ := a.TransformFrameIp(frame);
    var b := new ImageOverlay();
    b.SetProperty(PropShowDebugInfo, !flag);
    var _ := b.TransformFrameIp(frame);
    withFlag, without := a.drawLog, b.drawLog;
  }

  /** After two frames the surface has the second frame's size and points at
      the second frame's pixels; it was recreated only if the size changed. */
  method TwoFrames(first: Frame, second: Frame) returns (image: Option<Surface>, events: seq<SurfaceEvent>)
    ensures image == Some(Surface(second.width, second.height, Borrowed(second.buffer)))
    ensures first.width == second.width && first.height == second.height ==>
              events == [Create(first.width, first.height)]
    ensures first.width != second.width || first.height != second.height ==>
              events == [Create(first.width, first.height), Release(first.width, first.height),
                         Create(second.width, second.height)]
  {
    var overlay := new ImageOverlay();
    var _ := overlay.TransformFrameIp(first);
    var _ := overlay.TransformFrameIp(second);
    image, events := overlay.cvImage, overlay.surfaceLog;
  }

  /** Processing the same frame twice draws its rectangles twice and sets the surface up once. */
  method SameFrameTwice(frame: Frame) returns (draws: seq<DrawOp>, events: seq<SurfaceEvent>)
    ensures draws == FrameDraws(frame) + FrameDraws(frame)
    ensures events == [Create(frame.width, frame.height)]
  {
    var overlay := new ImageOverlay();
    var _ := overlay.TransformFrameIp(frame);
    var _ := overlay.TransformFrameIp(frame);
    draws, events := overlay.drawLog, overlay.surfaceLog;
  }

  /** The rectangle calls of a run of frames, in frame order. */
  function RunDraws(frames: seq<Frame>): seq<DrawOp> {
    if frames == [] then [] else RunDraws(frames[..|frames| - 1]) + FrameDraws(frames[|frames| - 1])
  }

  /** A lifetime of the element: create it, pass it every frame, destroy it.
      Every surface it created has been released, every frame was passed on,
      and it drew exactly what each frame asked for. */
  method Lifetime(frames: seq<Frame>) returns (allocations: nat, releases: nat, draws: seq<DrawOp>)
    ensures allocations == releases
    ensures frames != [] ==> allocations >= 1
    ensures draws == RunDraws(frames)
  {
    var overlay := new ImageOverlay();
    for i := 0 to |frames|
      invariant overlay.Valid()
      invariant overlay.drawLog == RunDraws(frames[..i])
      invariant i > 0 ==> |overlay.surfaceLog| >= 1
    {
      var ret := overlay.TransformFrameIp(frames[i]);
      assert ret == FlowOk;
      RunDrawsSnoc(frames, i);
    }
    assert frames[..|frames|] == frames;
    ghost var beforeTeardown := overlay.surfaceLog;
    overlay.Finalize();
    if frames != [] {
      assert overlay.surfaceLog[0] == beforeTeardown[0];
      AllocationsAtLeastFirst(overlay.surfaceLog);
    }
    allocations, releases, draws := Allocations(overlay.surfaceLog), Releases(overlay.surfaceLog), overlay.drawLog;
  }

  /** One more frame adds its own calls after those of the frames before it. */
  lemma RunDrawsSnoc(frames: seq<Frame>, i: nat)
    requires i < |frames|
    ensures RunDraws(frames[..i + 1]) == RunDraws(frames[..i]) + FrameDraws(frames[i])
  {
    assert frames[..i + 1][..i] == frames[..i];
  }

  lemma {:induction false} AllocationsAtLeastFirst(log: seq<SurfaceEvent>)
    requires log != [] && log[0].Create?
    ensures Allocations(log) >= 1
    decreases |log|
  {
    if |log| > 1 {
      var prefix := log[..|log| - 1];
      assert prefix[0] == log[0];
      AllocationsAtLeastFirst(prefix);
    }
  }
}
