/** The OpenTelemetry attribute types the engine produces and consumes. */
module Otel {
  import opened Prelude

  /** A homogeneous array attribute value. */
  datatype ArrayValue =
    | BoolArray(bools: seq<bool>)
    | I64Array(ints: seq<i64>)
    | F64Array(floats: seq<f64>)
    | StringArray(strings: seq<string>)

  /** An attribute value. */
  datatype Value =
    | Bool(b: bool)
    | I64(i: i64)
    | F64(f: f64)
    | String(s: string)
    | Array(items: ArrayValue)

  /** A typed attribute. */
  datatype KeyValue = KeyValue(key: string, value: Value)

  /**
    Attribute keys from the semantic-conventions crate. The proofs rely on
    the two differing from each other and from the span's own field names
    "otel.name", "db.system" and "db.operation".
  */
  const DB_SYSTEM_NAME: string := "db.system.name"
  const DB_OPERATION_NAME: string := "db.operation.name"
}
