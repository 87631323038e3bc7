/** A value-level model of the keyed metadata records (GstStructure) that the
    overlay element reads.  A record is an ordered sequence of named fields;
    a field's value is either a nested record, an unsigned 32-bit integer
    (G_TYPE_UINT), or some other type that the element never accepts.
    Looking a field up by name returns the FIRST field carrying that name,
    which is how the record's getters search its field list. */
module Structures {

  datatype Option<+T> = None | Some(value: T)

  /** The range of a C `guint`. */
  newtype uint32 = x: int | 0 <= x < 0x1_0000_0000

  datatype Value = Struct(fields: seq<Field>) | UInt(u: uint32) | Other
  datatype Field = Field(name: string, value: Value)

  type Structure = seq<Field>

  /** The index of the first field named `name` at or after position `from`. */
  function FieldIndexFrom(s: Structure, name: string, from: nat): (r: Option<nat>)
    requires from <= |s|
    ensures r.Some? ==> from <= r.value < |s| && s[r.value].name == name
    ensures r.Some? ==> forall j :: from <= j < r.value ==> s[j].name != name
    ensures r.None? <==> forall j :: from <= j < |s| ==> s[j].name != name
    decreases |s| - from
  {
    if from == |s| then None
    else if s[from].name == name then Some(from)
    else FieldIndexFrom(s, name, from + 1)
  }

  /** The value of the first field named `name`, if there is one. */
  function Lookup(s: Structure, name: string): Option<Value> {
    match FieldIndexFrom(s, name, 0)
    case Some(i) => Some(s[i].value)
    case None => None
  }

  /** A lookup fails exactly when no field has the name. */
  lemma LookupMissing(s: Structure, name: string)
    ensures Lookup(s, name).None? <==> forall j :: 0 <= j < |s| ==> s[j].name != name
  {
  }

  /** A lookup yields the value of the first field that has the name. */
  lemma LookupFirst(s: Structure, name: string, i: nat)
    requires i < |s| && s[i].name == name
    requires forall j :: 0 <= j < i ==> s[j].name != name
    ensures Lookup(s, name) == Some(s[i].value)
  {
    assert FieldIndexFrom(s, name, 0) == Some(i);
  }

  /** A record built by the structure API never holds two fields of one name. */
  predicate UniqueNames(s: Structure) {
    forall i, j :: 0 <= i < j < |s| ==> s[i].name != s[j].name
  }

  /** In a record without repeated names, looking up a field's own name finds that field. */
  lemma LookupOwnName(s: Structure, i: nat)
    requires UniqueNames(s) && i < |s|
    ensures Lookup(s, s[i].name) == Some(s[i].value)
  {
    LookupFirst(s, s[i].name, i);
  }
}
