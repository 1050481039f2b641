/**
 * The dynamically typed protocol-buffer `Value` tree that the prediction
 * service exchanges (google.protobuf.Value), with the nil-tolerant getters
 * of its generated Go code: asking a value for the wrong kind yields the
 * zero of that kind (0 for a number, nil for a struct or a list) rather
 * than failing.
 */
module Structpb {

  /** One value of the tree; a struct is a map from field name to value. */
  datatype Value =
    | NullValue
    | NumberValue(number: real)
    | StringValue(str: string)
    | BoolValue(flag: bool)
    | StructValue(fields: map<string, Value>)
    | ListValue(values: seq<Value>)

  /** A Go pointer that may be nil. */
  datatype Option<T> = None | Some(value: T)

  /** `v.GetNumberValue()`: the number, or 0 for any other kind. */
  function GetNumberValue(v: Value): real {
    if v.NumberValue? then v.number else 0.0
  }

  /** `v.GetStructValue()`: the struct's fields, or nil for any other kind. */
  function GetStructValue(v: Value): Option<map<string, Value>> {
    if v.StructValue? then Some(v.fields) else None
  }

  /** `v.GetListValue()`: the list, or nil for any other kind. */
  function GetListValue(v: Value): Option<seq<Value>> {
    if v.ListValue? then Some(v.values) else None
  }

  /** `l.GetValues()`, which a nil list answers with an empty slice. */
  function GetValues(l: Option<seq<Value>>): seq<Value> {
    if l.Some? then l.value else []
  }

  /** `fields[key]` on a Go map of pointers: nil when the key is absent. */
  function Field(fields: map<string, Value>, key: string): Option<Value> {
    if key in fields then Some(fields[key]) else None
  }

  /** The list of number values that carries a vector. */
  function NumberList(xs: seq<real>): (v: Value)
    ensures v.ListValue? && |v.values| == |xs|
    ensures forall i :: 0 <= i < |xs| ==> GetNumberValue(v.values[i]) == xs[i]
  {
    ListValue(seq(|xs|, i requires 0 <= i < |xs| => NumberValue(xs[i])))
  }
}
