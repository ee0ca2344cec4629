/** JSON values as they travel over the wire: request bodies, rows and the
    serialised form of a Column. */
module Json {

  datatype Json =
    | JNull
    | JBool(b: bool)
    | JNum(n: int)
    | JStr(s: string)
    | JArr(items: seq<Json>)
    | JObj(fields: map<string, Json>)

  /** A row of the table: a mapping from column id to value (glide.py:11). */
  type Row = map<string, Json>

  /** The JSON array of rows sent as the body of one stash PUT. */
  function RowsArray(rows: seq<Row>): (j: Json)
    ensures j.JArr? && |j.items| == |rows|
    ensures forall i :: 0 <= i < |rows| ==> j.items[i] == JObj(rows[i])
  {
    JArr(seq(|rows|, i requires 0 <= i < |rows| => JObj(rows[i])))
  }
}
