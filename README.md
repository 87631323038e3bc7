# Image overlay from frame metadata — a Dafny model

This project models the `imageoverlaymetadata` video filter of the Kurento
data-channel example (`src/gst-plugins/kmsimageoverlaymetadata.c`). The filter
runs on every video frame in place. It keeps an OpenCV image header sized to
the frame, points that header at the frame's mapped pixels, and reads the
metadata record attached to the frame. It then draws a green rectangle for
every region the record describes. The frame itself is always passed on.

The model has four modules:

- `Structures` (`structure.dfy`) models the keyed metadata record (a
  `GstStructure`) as values. A record is an ordered list of named fields. A
  field holds a nested record, an unsigned 32-bit integer, or any other type.
  A lookup by name finds the first field with that name, as the record's
  getters do.
- `FaceDecoder` (`faces.dfy`) models `get_faces`. `Faces` is the
  specification function. `GetFaces` is the loop as the C code runs it, and it
  is proved equal to `Faces`. The lemmas state which fields yield a rectangle,
  in which order, and what each component of a rectangle holds.
- `ImageOverlayMetadata` (`overlay.dfy`) models the element as a class. Its
  fields are the surface (`cvImage`), the `show-debug-region` flag, a log of
  surface creations and releases, and a log of rectangle-drawing calls. It
  also has the functions that specify what those logs gain per operation.
- `OverlayScenarios` (`scenarios.dfy`) states what short sequences of
  operations on a fresh element lead to: the property round-trips, that the flag has no
  effect on drawing, how the surface follows a change of frame size, and that
  a whole lifetime releases every surface it creates.

Behaviour modelled from the code:

- `get_faces` finds the n-th field's name and then looks the field up again by
  that name. So for a record with repeated names, the value used is the first
  field of that name. `IsRegionField` follows this. `RegionFieldOfUniqueRecord`
  gives the simpler reading for records without repeated names, which is what
  the structure API builds.
- A nested record that lacks one of `x`, `y`, `width` or `height`, or holds it
  as a type other than `guint`, still yields a rectangle. That component is 0:
  `get_faces` never checks that the four sub-fields are present (lines
  177-184), so the zeroed rectangle is still appended.
- A `guint` is stored into `CvRect`'s `int` fields. A value of 2^31 or more is
  therefore read as a negative `int` (`AsCInt`).
- The surface remembers the last frame's buffer after the frame is
  processed. The model keeps it that way: `cvImage` stays `Borrowed` until
  the next frame rebinds it or the size changes.
- Frames, buffers and the metadata record are inputs. A buffer is identified
  by a number, and drawing records the surface it targets.

## Model

| member | source | states |
|---|---|---|
| `Structures.FieldIndexFrom` | src/gst-plugins/kmsimageoverlaymetadata.c:174 | The index found is the first field at or after the start that has the name; none is found exactly when no field from the start has it. |
| `Structures.LookupMissing` | src/gst-plugins/kmsimageoverlaymetadata.c:174-182 | A lookup by name fails exactly when no field has that name. |
| `Structures.LookupFirst` | src/gst-plugins/kmsimageoverlaymetadata.c:174-182 | A lookup by name yields the value of the first field with that name. |
| `Structures.LookupOwnName` | src/gst-plugins/kmsimageoverlaymetadata.c:168-174 | In a record without repeated names, looking up the n-th field's name yields the n-th field's value. |
| `FaceDecoder.AsCInt` | src/gst-plugins/kmsimageoverlaymetadata.c:179-182 | A `guint` read into an `int` lies in the 32-bit signed range, is congruent to the unsigned value modulo 2^32, and equals it below 2^31. |
| `FaceDecoder.ReadUIntMissing` | src/gst-plugins/kmsimageoverlaymetadata.c:177-182 | A rectangle component with no sub-field of its name stays at its zero initial value. |
| `FaceDecoder.ReadUIntFirst` | src/gst-plugins/kmsimageoverlaymetadata.c:177-182 | A rectangle component takes the value of the first sub-field of its name when that holds a `guint`. It stays 0 when that sub-field holds another type. |
| `FaceDecoder.RegionIndicesUpTo` | src/gst-plugins/kmsimageoverlaymetadata.c:164-186 | The positions of the region-yielding fields are strictly ascending, lie below the bound, and include a position exactly when that field yields a region. |
| `FaceDecoder.GetFaces` | src/gst-plugins/kmsimageoverlaymetadata.c:156-188 | The loop skips the timestamp, re-looks each field up by name, and appends a zeroed rectangle filled component by component. It returns exactly `Faces` of the record. |
| `FaceDecoder.FacesFollowFields` | src/gst-plugins/kmsimageoverlaymetadata.c:164-186 | There is one rectangle per region-yielding field, in field order. The j-th rectangle is decoded from the j-th such field, and no other field contributes. |
| `FaceDecoder.FacesBound` | src/gst-plugins/kmsimageoverlaymetadata.c:164-186 | The number of rectangles is at most the number of fields not named "timestamp". |
| `FaceDecoder.TimestampOnlyDecodesEmpty` | src/gst-plugins/kmsimageoverlaymetadata.c:170-172 | A record whose every field is named "timestamp" decodes to the empty list. |
| `FaceDecoder.RegionFieldOfUniqueRecord` | src/gst-plugins/kmsimageoverlaymetadata.c:170-184 | In a record without repeated names, a field yields a rectangle exactly when it is not the timestamp and holds a nested record. The rectangle is read from that nested record. |
| `FaceDecoder.OneRegionAndTimestamp` | src/gst-plugins/kmsimageoverlaymetadata.c:164-186 | `{r0: {x:10, y:10, width:20, height:20}, timestamp: 123}` decodes to the single rectangle (10, 10, 20, 20). |
| `FaceDecoder.MissingHeightStillDecoded` | src/gst-plugins/kmsimageoverlaymetadata.c:174-184 | A nested record without `height` still yields a rectangle with height 0 and the other components copied. A field holding a plain integer yields nothing. |
| `ImageOverlayMetadata.DrawCalls` | src/gst-plugins/kmsimageoverlaymetadata.c:128-133 | There is one rectangle call per region, in list order: corners (x, y) and (x+width, y+height), colour (0,255,0,0), thickness 3, line type 8, shift 0, on the given surface. |
| `ImageOverlayMetadata.AllocationsBalance` | src/gst-plugins/kmsimageoverlaymetadata.c:141-153 | While the surface field agrees with the event log, allocations exceed releases by one when a surface exists and equal them otherwise. So at most one surface is ever live. |
| `ImageOverlayMetadata.SetupKeepsInvariant` | src/gst-plugins/kmsimageoverlaymetadata.c:141-153 | Create-on-first-use, release-then-create on a size change, and no-op on the same size all keep the surface field and the event log in agreement. |
| `ImageOverlayMetadata.NoDrawsWithoutRegions` | src/gst-plugins/kmsimageoverlaymetadata.c:214-223 | A frame causes no drawing exactly when it has no metadata or its metadata decodes to no region. |
| `ImageOverlayMetadata.ImageOverlay.constructor` | src/gst-plugins/kmsimageoverlaymetadata.c:253-259 | A new element has no surface, the flag false, and empty logs. |
| `ImageOverlayMetadata.ImageOverlay.SetProperty` | src/gst-plugins/kmsimageoverlaymetadata.c:82-99 | Property id 1 stores the value. Any other id leaves the flag unchanged. Nothing else changes. |
| `ImageOverlayMetadata.ImageOverlay.GetProperty` | src/gst-plugins/kmsimageoverlaymetadata.c:101-120 | Property id 1 reports the stored flag. Any other id reports nothing. |
| `ImageOverlayMetadata.ImageOverlay.InitializeImages` | src/gst-plugins/kmsimageoverlaymetadata.c:137-154 | Afterwards a surface of the frame's size exists. The log gains one creation on first use, a release then a creation on a size change, and nothing when the size matches; in that last case the surface is untouched. |
| `ImageOverlayMetadata.ImageOverlay.DisplayDetections` | src/gst-plugins/kmsimageoverlaymetadata.c:122-135 | The draw log gains exactly `DrawCalls` of the list on the current surface. |
| `ImageOverlayMetadata.ImageOverlay.TransformFrameIp` | src/gst-plugins/kmsimageoverlaymetadata.c:196-231 | The result is always OK. The surface has the frame's size and is bound to the frame's buffer. The surface log gains the setup events, and the draw log gains `FrameDraws` of the frame, which does not involve the flag. |
| `ImageOverlayMetadata.ImageOverlay.Finalize` | src/gst-plugins/kmsimageoverlaymetadata.c:241-250 | A live surface is released once. Afterwards none exists and allocations equal releases. |
| `OverlayScenarios.SetThenGet` | src/gst-plugins/kmsimageoverlaymetadata.c:88-119 | Reading the property after writing b gives b. |
| `OverlayScenarios.DefaultProperty` | src/gst-plugins/kmsimageoverlaymetadata.c:257 | A new element reports the property as false. |
| `OverlayScenarios.UnknownIdKeepsProperty` | src/gst-plugins/kmsimageoverlaymetadata.c:90-97 | Writing an unknown property id leaves the stored flag as it was. |
| `OverlayScenarios.PropertyDoesNotAffectDrawing` | src/gst-plugins/kmsimageoverlaymetadata.c:122-135 | Two elements that differ only in the flag draw the same calls for a frame. |
| `OverlayScenarios.TwoFrames` | src/gst-plugins/kmsimageoverlaymetadata.c:141-153 | After two frames the surface has the second frame's size and points at the second frame's buffer. It was released and recreated exactly when the size changed. |
| `OverlayScenarios.SameFrameTwice` | src/gst-plugins/kmsimageoverlaymetadata.c:141-153 | The same frame twice draws its calls twice and creates the surface once. |
| `OverlayScenarios.Lifetime` | src/gst-plugins/kmsimageoverlaymetadata.c:196-250 | Over construction, any run of frames and finalization, allocations equal releases (at least one if any frame came), and the draw log is the frames' calls in order. |

## Left out

- Type registration, `class_init`, pad templates and caps, and plugin registration (lines 77-80, 261-306): framework glue with no logic of the element.
- Mapping and unmapping the frame buffer (lines 205, 228): a buffer is a number, and binding the surface to it is `Borrowed(buffer)`.
- Rasterisation by the drawing library: `cvRectangle`, `cvCreateImage` and `cvReleaseImage` are foreign. Drawing is a log of calls, and creation and release are log events.
- Failure to allocate a surface: the C code does not check for it, and the library's error handling is foreign.
- `GST_OBJECT_LOCK`/`GST_OBJECT_UNLOCK` (lines 88-119, 210-226): they serve mutual exclusion with a control thread, which is concurrency. The lock does not cover the surface setup at lines 207-208.
- The invalid-property warning (lines 95, 116) and debug logging: diagnostic output only. An unknown id changes nothing, and reading one reports no value.
- The empty `dispose` (lines 233-239) and the unused fields and macros (`offsetXPercent` and the others at line 63, `TEMP_PATH`, `BLUE_COLOR`, `SRC_OVERLAY`).
- Freeing the nested record and the region list (lines 183, 190-194, 222): memory management with no visible effect in the model.
- `src/server/implementation/objects/KmsShowDataImpl.hpp` is not part of this model: it holds only generated object-binding declarations.
- DrawCalls: computes the corners `x + width` and `y + height` as unbounded integers. The C `int` overflow, which is undefined behaviour, is not modelled.
