/** The metadata decoder of the overlay element (`get_faces`): it walks the
    fields of a frame's metadata record in order, skips the one named
    "timestamp", and turns every field whose value is a nested record into
    one rectangle.  The rectangle starts zeroed and each of its four
    components is read on its own, so a missing or mistyped component
    stays 0 and the rectangle is still produced. */
module FaceDecoder {
  import opened Structures

  const TimestampField := "timestamp"

  /** OpenCV's CvRect: four C `int` components. */
  datatype Rect = Rect(x: int, y: int, width: int, height: int)

  /** The C `int` that holds the bits of a `guint` stored into it. */
  function AsCInt(u: uint32): (v: int)
    ensures -0x8000_0000 <= v < 0x8000_0000
    ensures (v - u as int) % 0x1_0000_0000 == 0
    ensures u < 0x8000_0000 ==> v == u as int
  {
    if u < 0x8000_0000 then u as int else u as int - 0x1_0000_0000
  }

  /** What a zero-initialised `int` holds after asking the record for an
      unsigned field `name`. */
  function ReadUInt(face: Structure, name: string): int {
    match Lookup(face, name)
    case Some(UInt(u)) => AsCInt(u)
    case _ => 0
  }

  /** A component with no sub-field of its name stays 0. */
  lemma ReadUIntMissing(face: Structure, name: string)
    requires forall j :: 0 <= j < |face| ==> face[j].name != name
    ensures ReadUInt(face, name) == 0
  {
    LookupMissing(face, name);
  }

  /** A component takes the value of the first sub-field of its name when
      that holds a `guint`, and stays 0 when it holds any other type. */
  lemma ReadUIntFirst(face: Structure, name: string, i: nat)
    requires i < |face| && face[i].name == name
    requires forall j :: 0 <= j < i ==> face[j].name != name
    ensures face[i].value.UInt? ==> ReadUInt(face, name) == AsCInt(face[i].value.u)
    ensures !face[i].value.UInt? ==> ReadUInt(face, name) == 0
  {
    LookupFirst(face, name, i);
  }

  /** The rectangle decoded from one nested record. */
  function RegionOf(face: Structure): Rect {
    Rect(ReadUInt(face, "x"), ReadUInt(face, "y"), ReadUInt(face, "width"), ReadUInt(face, "height"))
  }

  /** Field `i` yields a rectangle: it is not the timestamp, and the record's
      value under its name is a nested record. */
  predicate IsRegionField(m: Structure, i: nat)
    requires i < |m|
  {
    m[i].name != TimestampField && Lookup(m, m[i].name).Some? && Lookup(m, m[i].name).value.Struct?
  }

  function RegionAt(m: Structure, i: nat): Rect
    requires i < |m| && IsRegionField(m, i)
  {
    RegionOf(Lookup(m, m[i].name).value.fields)
  }

  /** The rectangles decoded from the first `k` fields, in field order. */
  function FacesUpTo(m: Structure, k: nat): seq<Rect>
    requires k <= |m|
  {
    if k == 0 then []
    else FacesUpTo(m, k - 1) + (if IsRegionField(m, k - 1) then [RegionAt(m, k - 1)] else [])
  }

  /** The list `get_faces` returns for a metadata record. */
  function Faces(m: Structure): seq<Rect> {
    FacesUpTo(m, |m|)
  }

  /** The positions below `k` of the fields that yield a rectangle, ascending. */
  function RegionIndicesUpTo(m: Structure, k: nat): (r: seq<nat>)
    requires k <= |m|
    ensures forall j :: 0 <= j < |r| ==> r[j] < k
    ensures forall j, l :: 0 <= j < l < |r| ==> r[j] < r[l]
    ensures forall i :: 0 <= i < k ==> (IsRegionField(m, i) <==> i in r)
  {
    if k == 0 then []
    else
      var prev := RegionIndicesUpTo(m, k - 1);
      if IsRegionField(m, k - 1) then
        assert forall i :: i in prev + [k - 1] <==> i in prev || i == k - 1;
        prev + [k - 1]
      else prev
  }

  /** The number of fields below `k` not named "timestamp". */
  function NonTimestampCount(m: Structure, k: nat): nat
    requires k <= |m|
  {
    if k == 0 then 0
    else NonTimestampCount(m, k - 1) + (if m[k - 1].name != TimestampField then 1 else 0)
  }

  /** The decoder loop as `get_faces` runs it: walk the fields by position,
      skip the timestamp, look the field up again by its name, and append a
      zero-initialised rectangle whose components are read one at a time. */
  method GetFaces(faces: Structure) returns (list: seq<Rect>)
    ensures list == Faces(faces)
  {
    list := [];
    var len := |faces|;
    for aux := 0 to len
      invariant list == FacesUpTo(faces, aux)
    {
      var name := faces[aux].name;
      if name == TimestampField {
        continue;
      }
      var ret := Lookup(faces, name);
      if ret.Some? && ret.value.Struct? {
        var face := ret.value.fields;
        var r := Rect(0, 0, 0, 0);
        match Lookup(face, "x") {
          case Some(UInt(u)) => r := r.(x := AsCInt(u));
          case _ =>
        }
        match Lookup(face, "y") {
          case Some(UInt(u)) => r := r.(y := AsCInt(u));
          case _ =>
        }
        match Lookup(face, "width") {
          case Some(UInt(u)) => r := r.(width := AsCInt(u));
          case _ =>
        }
        match Lookup(face, "height") {
          case Some(UInt(u)) => r := r.(height := AsCInt(u));
          case _ =>
        }
        assert r == RegionOf(face);
        list := list + [r];
      }
    }
  }

  /** `faces` holds, position by position, the rectangles of the fields at `idx`. */
  predicate DecodedFrom(m: Structure, faces: seq<Rect>, idx: seq<nat>) {
    |faces| == |idx| &&
    forall j :: 0 <= j < |idx| ==> idx[j] < |m| && IsRegionField(m, idx[j]) && faces[j] == RegionAt(m, idx[j])
  }

  lemma DecodedFromAppend(m: Structure, faces: seq<Rect>, idx: seq<nat>, i: nat)
    requires DecodedFrom(m, faces, idx)
    requires i < |m| && IsRegionField(m, i)
    ensures DecodedFrom(m, faces + [RegionAt(m, i)], idx + [i])
  {
    var faces', idx' := faces + [RegionAt(m, i)], idx + [i];
    forall j | 0 <= j < |idx'|
      ensures idx'[j] < |m| && IsRegionField(m, idx'[j]) && faces'[j] == RegionAt(m, idx'[j])
    {
      if j < |idx| {
        assert idx'[j] == idx[j] && faces'[j] == faces[j];
      }
    }
  }

  /** Exactly one rectangle per field that yields one, in field order: the
      j-th rectangle comes from the j-th such field. */
  lemma {:induction false} FacesFollowFields(m: Structure, k: nat)
    requires k <= |m|
    ensures DecodedFrom(m, FacesUpTo(m, k), RegionIndicesUpTo(m, k))
  {
    if k > 0 {
      FacesFollowFields(m, k - 1);
      var faces, idx := FacesUpTo(m, k - 1), RegionIndicesUpTo(m, k - 1);
      if IsRegionField(m, k - 1) {
        assert FacesUpTo(m, k) == faces + [RegionAt(m, k - 1)];
        assert RegionIndicesUpTo(m, k) == idx + [k - 1];
        DecodedFromAppend(m, faces, idx, k - 1);
      } else {
        assert FacesUpTo(m, k) == faces;
        assert RegionIndicesUpTo(m, k) == idx;
      }
    }
  }

  /** The decoder never yields more rectangles than there are non-timestamp fields. */
  lemma {:induction false} FacesBound(m: Structure, k: nat)
    requires k <= |m|
    ensures |FacesUpTo(m, k)| <= NonTimestampCount(m, k)
  {
    if k > 0 {
      FacesBound(m, k - 1);
    }
  }

  /** No rectangle is ever decoded from the timestamp field: a record whose
      every field is named "timestamp" decodes to the empty list. */
  lemma {:induction false} TimestampOnlyDecodesEmpty(m: Structure, k: nat)
    requires k <= |m|
    requires forall i :: 0 <= i < k ==> m[i].name == TimestampField
    ensures FacesUpTo(m, k) == []
  {
    if k > 0 {
      TimestampOnlyDecodesEmpty(m, k - 1);
    }
  }

  /** In a record without repeated names, a field yields a rectangle exactly
      when it is not the timestamp and its own value is a nested record, and
      the rectangle is read from that record. */
  lemma RegionFieldOfUniqueRecord(m: Structure, i: nat)
    requires UniqueNames(m) && i < |m|
    ensures IsRegionField(m, i) <==> m[i].name != TimestampField && m[i].value.Struct?
    ensures IsRegionField(m, i) ==> RegionAt(m, i) == RegionOf(m[i].value.fields)
  {
    LookupOwnName(m, i);
  }

  /** A record of one rectangle and a timestamp decodes to that one rectangle. */
  lemma OneRegionAndTimestamp()
    ensures Faces([Field("r0", Struct([Field("x", UInt(10)), Field("y", UInt(10)),
                                       Field("width", UInt(20)), Field("height", UInt(20))])),
                   Field("timestamp", UInt(123))])
            == [Rect(10, 10, 20, 20)]
  {
    var face := [Field("x", UInt(10)), Field("y", UInt(10)), Field("width", UInt(20)), Field("height", UInt(20))];
    var m := [Field("r0", Struct(face)), Field("timestamp", UInt(123))];
    assert Lookup(m, "r0") == Some(Struct(face));
    assert RegionOf(face) == Rect(10, 10, 20, 20);
  }

  /** A nested record without a "height" still yields a rectangle, with
      height 0 and the other components copied. */
  lemma MissingHeightStillDecoded()
    ensures Faces([Field("r0", Struct([Field("x", UInt(5)), Field("y", UInt(6)), Field("width", UInt(7))])),
                   Field("r1", UInt(9))])
            == [Rect(5, 6, 7, 0)]
  {
    var face := [Field("x", UInt(5)), Field("y", UInt(6)), Field("width", UInt(7))];
    var m := [Field("r0", Struct(face)), Field("r1", UInt(9))];
    assert Lookup(m, "r0") == Some(Struct(face));
    assert m[0].name != "r1" by { assert "r0"[1] != "r1"[1]; }
    assert Lookup(m, m[1].name) == Some(UInt(9));
    assert RegionOf(face) == Rect(5, 6, 7, 0);
  }
}
