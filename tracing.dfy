/** A tracing span, reduced to what the engine does with it: named fields that can be recorded. */
module Tracing {
  import opened Prelude

  /** The kinds of value a span field can hold. */
  datatype FieldValue = Str(s: string) | Int(i: i64) | Float(f: f64) | Flag(b: bool)

  class Span {
    /** The name the span was created under. */
    const name: string
    /** The span's fields, by name. */
    var fields: map<string, FieldValue>

    constructor (name: string, fields: map<string, FieldValue>)
      ensures this.name == name && this.fields == fields
    {
      this.name := name;
      this.fields := fields;
    }

    /** `span.record(key, value)`: the field `key` now holds `value`; nothing else changes. */
    method Record(key: string, value: FieldValue)
      modifies this
      ensures fields == old(fields)[key := value]
    {
      fields := fields[key := value];
    }
  }
}
