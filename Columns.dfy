/** The Column schema entry of the Glide API (glide.py:13-48). */
module Columns {
  import opened Json
  import opened Errors

  /** The column types the Glide API accepts (glide.py:13-20). */
  const AllowedColumnTypes: seq<string> := ["string", "number", "boolean", "url", "dateTime", "json"]

  /** The dictionary a Column is: `{id, type: {kind}, displayName}`. */
  datatype Column = Column(id: string, kind: string, displayName: string) {

    /** `id()` */
    function Id(): string { id }

    /** `type()`: the kind, unwrapped from its `{kind: ...}` wire form. */
    function Type(): string { kind }
  }

  /** `Column(id, type)`: fails for a type outside the allowed list, otherwise
      the column named `id`, of that type, displayed under its id. */
  function NewColumn(id: string, typeName: string): (r: Result<Column>)
    ensures r.Ok? <==> typeName in AllowedColumnTypes
    ensures r.Ok? ==> r.value.Id() == id && r.value.Type() == typeName && r.value.displayName == id
    ensures r.Err? ==> r.error == InvalidColumnType(typeName)
  {
    if typeName !in AllowedColumnTypes then Err(InvalidColumnType(typeName))
    else Ok(Column(id, typeName, id))
  }

  /** The JSON object a Column serialises to (it inherits from dict). */
  function ToJson(c: Column): (j: Json)
    ensures j.JObj? && j.fields.Keys == {"id", "type", "displayName"}
    ensures j.fields["id"] == JStr(c.Id())
    ensures j.fields["type"] == JObj(map["kind" := JStr(c.Type())])
    ensures j.fields["displayName"] == JStr(c.displayName)
  {
    JObj(map["id" := JStr(c.id), "type" := JObj(map["kind" := JStr(c.kind)]), "displayName" := JStr(c.displayName)])
  }

  /** The right-hand side of `==`: another Column or any other JSON value. */
  datatype Operand = ColumnOperand(column: Column) | OtherOperand(value: Json)

  /** `__eq__`: the two dictionaries compared when `other` is a Column, False otherwise. */
  function Equals(c: Column, other: Operand): (r: bool)
    ensures r ==> other.ColumnOperand?
    ensures other == ColumnOperand(c) ==> r
  {
    match other
    case ColumnOperand(o) => ToJson(c) == ToJson(o)
    case OtherOperand(_) => false
  }

  /** Equality is structural: two Columns are equal exactly when their id,
      type kind and display name match, and a Column never equals anything
      that is not a Column. */
  lemma EqualsIsStructural(c: Column, other: Operand)
    ensures Equals(c, other) <==>
      other.ColumnOperand? && other.column.id == c.id && other.column.kind == c.kind
      && other.column.displayName == c.displayName
  {
    if other.ColumnOperand? && Equals(c, other) {
      var o := other.column;
      assert ToJson(c).fields["id"] == ToJson(o).fields["id"];
      assert ToJson(c).fields["type"].fields["kind"] == ToJson(o).fields["type"].fields["kind"];
      assert ToJson(c).fields["displayName"] == ToJson(o).fields["displayName"];
    }
  }

  /** Columns built by `Column(...)` compare equal exactly when they were built
      from the same id and type. */
  lemma NewColumnEquality(id1: string, t1: string, id2: string, t2: string)
    requires NewColumn(id1, t1).Ok? && NewColumn(id2, t2).Ok?
    ensures Equals(NewColumn(id1, t1).value, ColumnOperand(NewColumn(id2, t2).value)) <==> id1 == id2 && t1 == t2
  {
    EqualsIsStructural(NewColumn(id1, t1).value, ColumnOperand(NewColumn(id2, t2).value));
  }
}
