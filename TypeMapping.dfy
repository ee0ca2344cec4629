/** `airbyteTypeToGlideType` (destination.py:32-53): the Glide column type
    of a property of a stream's JSON schema. */
module TypeMapping {
  import opened Errors
  import opened Columns

  /** The "type" of a JSON-schema property: one type name, or a list of them
      (such as `["null", "integer"]`). */
  datatype SchemaType = TypeName(name: string) | TypeList(names: seq<string>)

  /** The mapping table of destination.py:33-38. */
  const GlideTypes: map<string, string> :=
    map["string" := "string", "number" := "number", "integer" := "number", "boolean" := "boolean"]

  /** A list element the scan of destination.py:42-46 stops at. */
  predicate Supported(name: string) {
    name != "null" && name in GlideTypes
  }

  /** The first supported element of a type list, if there is one. */
  function FirstSupported(names: seq<string>): (r: Option<string>)
    ensures r.None? <==> forall j :: 0 <= j < |names| ==> !Supported(names[j])
    ensures r.Some? ==> exists k :: 0 <= k < |names| && names[k] == r.value && Supported(names[k])
                                    && forall j :: 0 <= j < k ==> !Supported(names[j])
  {
    if names == [] then None
    else if Supported(names[0]) then Some(names[0])
    else
      var r := FirstSupported(names[1..]);
      assert forall j :: 1 <= j < |names| ==> names[j] == names[1..][j - 1];
      r
  }

  /** The Glide type of a schema type: the table entry of a name, or of the
      first supported element of a list; "string" when there is none. */
  function GlideTypeOf(t: SchemaType): (r: string)
    ensures r in {"string", "number", "boolean"}
    ensures r in AllowedColumnTypes
  {
    match t
    case TypeName(name) => if name in GlideTypes then GlideTypes[name] else "string"
    case TypeList(names) =>
      match FirstSupported(names)
      case Some(name) => GlideTypes[name]
      case None => "string"
  }

  /** `airbyteTypeToGlideType`: a list is first replaced by its first
      supported element, found by a loop that stops there; a name is then
      looked up, and anything else (an unknown name, or a list that is still
      a list) becomes "string". */
  method AirbyteTypeToGlideType(t: SchemaType) returns (glideType: string)
    ensures glideType == GlideTypeOf(t)
  {
    var jsonType := t;
    if t.TypeList? {
      var names := t.names;
      var i := 0;
      while i < |names|
        invariant 0 <= i <= |names|
        invariant jsonType == t ==> FirstSupported(names) == FirstSupported(names[i..])
        invariant jsonType != t ==> exists n :: jsonType == TypeName(n) && FirstSupported(names) == Some(n)
      {
        assert names[i..][1..] == names[i + 1..];
        if names[i] != "null" && names[i] in GlideTypes {
          jsonType := TypeName(names[i]);
          break;
        }
        i := i + 1;
      }
    }
    if jsonType.TypeName? && jsonType.name in GlideTypes {
      return GlideTypes[jsonType.name];
    }
    return "string";
  }

  /** A column built from a mapped type is always accepted. */
  lemma MappedColumnIsValid(id: string, t: SchemaType)
    ensures NewColumn(id, GlideTypeOf(t)).Ok?
    ensures NewColumn(id, GlideTypeOf(t)).value.Type() == GlideTypeOf(t)
  {
  }

  /** A single name: "integer" becomes "number"; "string", "number" and
      "boolean" stay themselves; every other name becomes "string". */
  lemma ScalarTypes(name: string)
    ensures GlideTypeOf(TypeName(name)) ==
      if name == "integer" then "number"
      else if name in {"string", "number", "boolean"} then name
      else "string"
  {
  }

  /** A list takes the type of its first element that is not "null" and is
      in the table, whatever follows it. */
  lemma {:induction false} ListTakesFirstSupported(names: seq<string>, k: nat)
    requires k < |names| && Supported(names[k])
    requires forall j :: 0 <= j < k ==> !Supported(names[j])
    ensures GlideTypeOf(TypeList(names)) == GlideTypes[names[k]]
    ensures GlideTypeOf(TypeList(names)) == GlideTypeOf(TypeName(names[k]))
  {
    if k > 0 {
      assert !Supported(names[0]);
      ListTakesFirstSupported(names[1..], k - 1);
    }
  }

  /** Elements after the first supported one are ignored. */
  lemma ListIgnoresLaterElements(names: seq<string>, k: nat, rest: seq<string>)
    requires k < |names| && Supported(names[k])
    ensures GlideTypeOf(TypeList(names[..k + 1] + rest)) == GlideTypeOf(TypeList(names[..k + 1]))
  {
    var head := names[..k + 1];
    assert Supported(head[k]);
    var first :| 0 <= first < |head| && head[first] == FirstSupported(head).value && Supported(head[first])
                 && forall j :: 0 <= j < first ==> !Supported(head[j]);
    ListTakesFirstSupported(head, first);
    assert forall j :: 0 <= j <= first ==> (head + rest)[j] == head[j];
    ListTakesFirstSupported(head + rest, first);
  }

  /** A list with no supported element, "null" included, maps to "string". */
  lemma ListWithoutSupportedType(names: seq<string>)
    requires forall j :: 0 <= j < |names| ==> !Supported(names[j])
    ensures GlideTypeOf(TypeList(names)) == "string"
  {
  }
}
