/** The overlay element itself (`KmsImageOverlay`): it keeps one drawing
    surface sized to the last frame, a boolean property, and draws a green
    rectangle for every region decoded from a frame's metadata.  The
    surface's creation and release are recorded as a log of events, and
    every rectangle drawn is recorded as a drawing call in a second log:
    the pixels themselves are the drawing library's business. */
module ImageOverlayMetadata {
  import opened Structures
  import opened FaceDecoder

  /** Property ids: PROP_0 is reserved, PROP_SHOW_DEBUG_INFO is "show-debug-region". */
  const PropShowDebugInfo: nat := 1

  /** Where a surface's pixels live: its own allocation, or a frame's mapped buffer. */
  datatype PixelData = Owned | Borrowed(buffer: nat)

  /** An 8-bit, 3-channel image header of the given size. */
  datatype Surface = Surface(width: nat, height: nat, imageData: PixelData)

  datatype SurfaceEvent = Create(width: nat, height: nat) | Release(width: nat, height: nat)

  datatype Point = Point(x: int, y: int)
  datatype Scalar = Scalar(v0: int, v1: int, v2: int, v3: int)

  /** One call of the drawing library's rectangle routine. */
  datatype DrawOp = Rectangle(image: Surface, pt1: Point, pt2: Point, color: Scalar,
                              thickness: int, lineType: int, shift: int)

  /** A video frame as the element sees it: the negotiated size, the buffer
      its pixels are mapped from, and the metadata record attached to it. */
  datatype Frame = Frame(width: nat, height: nat, buffer: nat, meta: Option<Structure>)

  datatype FlowReturn = FlowOk | FlowError

  /** Green in the element's BGR layout. */
  const Green := Scalar(0, 255, 0, 0)
  const LineThickness := 3
  const LineType := 8

  /** The rectangle calls for a list of regions, one per region, in list order. */
  function DrawCalls(faces: seq<Rect>, image: Surface): (ops: seq<DrawOp>)
    ensures |ops| == |faces|
    ensures forall i :: 0 <= i < |faces| ==>
              ops[i] == Rectangle(image, Point(faces[i].x, faces[i].y),
                                  Point(faces[i].x + faces[i].width, faces[i].y + faces[i].height),
                                  Scalar(0, 255, 0, 0), 3, 8, 0)
  {
    if faces == [] then []
    else
      var r := faces[|faces| - 1];
      DrawCalls(faces[..|faces| - 1], image)
        + [Rectangle(image, Point(r.x, r.y), Point(r.x + r.width, r.y + r.height), Green, LineThickness, LineType, 0)]
  }

  /** The surface events needed to bring `current` to a `width` x `height` size. */
  function SurfaceSetup(current: Option<Surface>, width: nat, height: nat): seq<SurfaceEvent> {
    match current
    case None => [Create(width, height)]
    case Some(s) =>
      if s.width == width && s.height == height then []
      else [Release(s.width, s.height), Create(width, height)]
  }

  /** The rectangle calls a frame causes: none without metadata, and otherwise
      one per decoded region, drawn on the surface bound to the frame's buffer. */
  function FrameDraws(frame: Frame): seq<DrawOp> {
    match frame.meta
    case None => []
    case Some(m) => DrawCalls(Faces(m), Surface(frame.width, frame.height, Borrowed(frame.buffer)))
  }

  /** The surface log starts with a creation and alternates creation and
      release, each release freeing the surface created just before it. */
  predicate Alternates(log: seq<SurfaceEvent>) {
    (forall i :: 0 <= i < |log| ==> (log[i].Create? <==> i % 2 == 0)) &&
    (forall i :: 0 < i < |log| && i % 2 == 1 ==> log[i] == Release(log[i - 1].width, log[i - 1].height))
  }

  /** The surface field agrees with the log: a surface exists exactly when
      the last event created it, and it has the size it was created with. */
  predicate SurfaceInvariant(image: Option<Surface>, log: seq<SurfaceEvent>) {
    Alternates(log) &&
    (image.Some? <==> |log| % 2 == 1) &&
    (image.Some? ==> log[|log| - 1] == Create(image.value.width, image.value.height))
  }

  function Allocations(log: seq<SurfaceEvent>): nat {
    if log == [] then 0 else Allocations(log[..|log| - 1]) + (if log[|log| - 1].Create? then 1 else 0)
  }

  function Releases(log: seq<SurfaceEvent>): nat {
    if log == [] then 0 else Releases(log[..|log| - 1]) + (if log[|log| - 1].Release? then 1 else 0)
  }

  /** At most one surface is ever live: allocations exceed releases by one
      while a surface exists and equal them otherwise. */
  lemma {:induction false} AllocationsBalance(image: Option<Surface>, log: seq<SurfaceEvent>)
    requires SurfaceInvariant(image, log)
    ensures Allocations(log) == Releases(log) + (if image.Some? then 1 else 0)
    decreases |log|
  {
    if log != [] {
      var prefix := log[..|log| - 1];
      assert Alternates(prefix);
      if |log| % 2 == 1 {
        AllocationsBalance(None, prefix);
      } else {
        var last := prefix[|prefix| - 1];
        AllocationsBalance(Some(Surface(last.width, last.height, Owned)), prefix);
      }
    }
  }

  /** Bringing the surface to a new size keeps the surface field and the log in agreement. */
  lemma SetupKeepsInvariant(image: Option<Surface>, log: seq<SurfaceEvent>, width: nat, height: nat, data: PixelData)
    requires SurfaceInvariant(image, log)
    requires image.Some? && image.value.width == width && image.value.height == height ==> data == image.value.imageData
    ensures SurfaceInvariant(Some(Surface(width, height, data)), log + SurfaceSetup(image, width, height))
  {
    var log' := log + SurfaceSetup(image, width, height);
    if image.Some? && (image.value.width != width || image.value.height != height) {
      assert log'[|log|] == Release(image.value.width, image.value.height);
      assert log'[|log| + 1] == Create(width, height);
      forall i | 0 < i < |log'| && i % 2 == 1
        ensures log'[i] == Release(log'[i - 1].width, log'[i - 1].height)
      {
        if i < |log| {
          assert log'[i] == log[i] && log'[i - 1] == log[i - 1];
        }
      }
    }
  }

  class ImageOverlay {
    var cvImage: Option<Surface>
    var showDebugInfo: bool
    var surfaceLog: seq<SurfaceEvent>
    var drawLog: seq<DrawOp>

    ghost predicate Valid()
      reads this
    {
      SurfaceInvariant(cvImage, surfaceLog)
    }

    /** A new element: no surface yet, the property off, nothing drawn. */
    constructor ()
      ensures Valid()
      ensures cvImage == None && !showDebugInfo
      ensures surfaceLog == [] && drawLog == []
    {
      cvImage := None;
      showDebugInfo := false;
      surfaceLog := [];
      drawLog := [];
    }

    /** Store the property; an unknown id only warns and changes nothing. */
    method SetProperty(propertyId: nat, value: bool)
      modifies this`showDebugInfo
      ensures showDebugInfo == if propertyId == PropShowDebugInfo then value else old(showDebugInfo)
    {
      if propertyId == PropShowDebugInfo {
        showDebugInfo := value;
      }
    }

    /** Report the property; an unknown id leaves the caller's value unset. */
    method GetProperty(propertyId: nat) returns (value: Option<bool>)
      ensures propertyId == PropShowDebugInfo ==> value == Some(showDebugInfo)
      ensures propertyId != PropShowDebugInfo ==> value.None?
    {
      if propertyId == PropShowDebugInfo {
        value := Some(showDebugInfo);
      } else {
        value := None;
      }
    }

    /** Make the surface match the frame's size: create it on first use,
        release and recreate it when the size changed, keep it otherwise. */
    method InitializeImages(width: nat, height: nat)
      requires Valid()
      modifies this`cvImage, this`surfaceLog
      ensures Valid()
      ensures cvImage.Some? && cvImage.value.width == width && cvImage.value.height == height
      ensures surfaceLog == old(surfaceLog) + SurfaceSetup(old(cvImage), width, height)
      ensures SurfaceSetup(old(cvImage), width, height) == [] ==> cvImage == old(cvImage)
      ensures SurfaceSetup(old(cvImage), width, height) != [] ==> cvImage.value.imageData == Owned
    {
      if cvImage.None? {
        SetupKeepsInvariant(cvImage, surfaceLog, width, height, Owned);
        surfaceLog := surfaceLog + [Create(width, height)];
        cvImage := Some(Surface(width, height, Owned));
      } else if cvImage.value.width != width || cvImage.value.height != height {
        SetupKeepsInvariant(cvImage, surfaceLog, width, height, Owned);
        surfaceLog := surfaceLog + [Release(cvImage.value.width, cvImage.value.height)];
        cvImage := None;
        surfaceLog := surfaceLog + [Create(width, height)];
        cvImage := Some(Surface(width, height, Owned));
      }
    }

    /** Draw one rectangle per region onto the surface, in list order. */
    method DisplayDetections(faces: seq<Rect>)
      requires cvImage.Some?
      modifies this`drawLog
      ensures drawLog == old(drawLog) + DrawCalls(faces, cvImage.value)
    {
      var image := cvImage.value;
      for i := 0 to |faces|
        invariant drawLog == old(drawLog) + DrawCalls(faces[..i], image)
      {
        var r := faces[i];
        drawLog := drawLog + [Rectangle(image, Point(r.x, r.y), Point(r.x + r.width, r.y + r.height),
                                        Green, LineThickness, LineType, 0)];
        assert faces[..i + 1][..i] == faces[..i];
      }
      assert faces[..|faces|] == faces;
    }

    /** Process one frame in place: fit the surface to the frame, point it at
        the frame's pixels, decode the metadata and draw what it holds.  The
        frame is always passed on. */
    method TransformFrameIp(frame: Frame) returns (ret: FlowReturn)
      requires Valid()
      modifies this`cvImage, this`surfaceLog, this`drawLog
      ensures Valid()
      ensures ret == FlowOk
      ensures cvImage == Some(Surface(frame.width, frame.height, Borrowed(frame.buffer)))
      ensures surfaceLog == old(surfaceLog) + SurfaceSetup(old(cvImage), frame.width, frame.height)
      ensures drawLog == old(drawLog) + FrameDraws(frame)
    {
      InitializeImages(frame.width, frame.height);
      cvImage := Some(cvImage.value.(imageData := Borrowed(frame.buffer)));
      if frame.meta.Some? {
        var facesList := GetFaces(frame.meta.value);
        if facesList != [] {
          DisplayDetections(facesList);
        }
      }
      ret := FlowOk;
    }

    /** Release the surface, if any, when the element is destroyed. */
    method Finalize()
      requires Valid()
      modifies this`cvImage, this`surfaceLog
      ensures Valid()
      ensures cvImage == None
      ensures surfaceLog == old(surfaceLog) + (if old(cvImage).Some? then [Release(old(cvImage).value.width, old(cvImage).value.height)] else [])
      ensures Allocations(surfaceLog) == Releases(surfaceLog)
    {
      if cvImage.Some? {
        var log' := surfaceLog + [Release(cvImage.value.width, cvImage.value.height)];
        forall i | 0 < i < |log'| && i % 2 == 1
          ensures log'[i] == Release(log'[i - 1].width, log'[i - 1].height)
        {
          if i < |surfaceLog| {
            assert log'[i] == surfaceLog[i] && log'[i - 1] == surfaceLog[i - 1];
          }
        }
        surfaceLog := log';
        cvImage := None;
      }
      AllocationsBalance(cvImage, surfaceLog);
    }
  }

  /** A frame draws nothing exactly when it has no metadata or its metadata
      decodes to no region. */
  lemma NoDrawsWithoutRegions(frame: Frame)
    ensures FrameDraws(frame) == [] <==> frame.meta.None? || Faces(frame.meta.value) == []
  {
  }
}
