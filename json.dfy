/** The parsed JSON document, as the JSON library hands it to the flattener. */
module Json {

  /** The scalar kinds the flattener accepts. */
  datatype ScalarKind = Number | Text | True | False | Null

  /**
   * A JSON value. A scalar carries the text the JSON library renders for it
   * (its `ToString()`); that rendering belongs to the library, so the model
   * takes it as given rather than computing it.
   */
  datatype Value =
    | Object(members: seq<(string, Value)>)
    | Array(elements: seq<Value>)
    | Scalar(kind: ScalarKind, text: string)
}
