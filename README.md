# Redis command telemetry, modelled in Dafny

This project models the telemetry engine of an OpenTelemetry instrumentation layer for the Rust redis client (`src/common/mod.rs`). For every redis command, the engine:

- derives the command's name from its first argument: the upper-cased text, `"SCAN"` for a cursor marker, and nothing for an empty command or bytes that are not UTF-8;
- builds the command's attribute list: `db.system = "redis"`, then the operation when there is a name;
- names the span `"redis " + lowercase(operation)` and creates it with its initial fields;
- copies the attributes of string, integer, float and boolean kind onto the span;
- records the outcome, classifying the error kind into one of sixteen fixed tags or `"unknown"`.

Modules:

- `Prelude`: `Option`, and the `i64` and `f64` value types.
- `Utf8`: a UTF-8 decoder with the well-formedness rules of the Unicode Standard, Table 3-7. These are the rules that Rust's `std::str::from_utf8` applies. There is also an encoder, which is how a Rust `&str` argument becomes bytes. Both round trips are proved.
- `Casing`: upper- and lower-casing of ASCII letters.
- `Redis`: command arguments (`Simple(bytes)` or `Cursor`), error kinds, errors and results.
- `Otel`: attribute values, key/value pairs and the two semantic-convention keys.
- `Tracing`: the `Span` class. It holds a creation name and a mutable map of fields, and `Record` updates that map.
- `Common`: the engine. Pure parts are functions. `extract_command_attributes`, the attribute loop and the three recorders are methods, each proved against a specification function. Lemmas state the properties the source documents and tests.

Inputs the engine never computes are parameters:

- the command, which comes from the caller;
- the result of executing it;
- the error's display text, carried in `RedisError.display`;
- the caller's operation name and key pattern.

## Model

| member | source | states |
|---|---|---|
| `Common.CommandName` | src/common/mod.rs:111-133 | A name exists exactly when the command is non-empty and its first argument is a cursor marker or valid UTF-8; any name has no ASCII lower-case letter |
| `Common.LogsWarning` | src/common/mod.rs:124-128 | When the warning fires the command gets no name; a non-empty command that does not warn gets one |
| `Common.WarningIffUnnamed` | src/common/mod.rs:124-128 | The UTF-8 warning is logged exactly when a non-empty command gets no name; an empty command never warns |
| `Common.CommandNameOfDecoded` | src/common/mod.rs:113-123 | A first argument of any bytes that decode to the text `s` names the command `ToUpper(s)` and logs no warning, whatever arguments follow |
| `Common.CommandNameOfText` | src/common/mod.rs:113-123 | A first argument holding text `s` names the command `ToUpper(s)`, whatever arguments follow |
| `Common.CommandNameOfInvalid` | src/common/mod.rs:122-128 | A first argument that is not UTF-8 gives no name and logs the warning, whatever follows |
| `Common.CommandNameOfCursor` | src/common/mod.rs:116-118 | A cursor first argument names `"SCAN"`, whatever follows |
| `Common.CommandNameFirstArgOnly` | src/common/mod.rs:112-114 | Two commands with the same first argument get the same name |
| `Common.CommandNameExamples` | src/common/mod.rs:85-102 | The documented examples: GET followed by any argument gives "GET", a cursor gives "SCAN", bytes 0,159,146,150 and the empty command give no name |
| `Common.CommandNameLowerCaseExample` | src/lib.rs:236-251 | Lower-case "get" followed by any argument gives the name "GET" |
| `Common.CommandAttributes` | src/common/mod.rs:45-56 | The list has one or two elements and element 0 is `DB_SYSTEM_NAME = "redis"`; it has two exactly when there is a name, and then element 1 is `DB_OPERATION_NAME` carrying that name |
| `Common.ExtractCommandAttributes` | src/common/mod.rs:45-56 | The list built by pushing onto the system attribute is the one specified above |
| `Common.OperationAttributeIffNamed` | src/common/mod.rs:50-53 | Some attribute has the operation key exactly when the command has a name, and every such attribute carries the name |
| `Common.AttributeExamples` | src/lib.rs:216-288 | SADD with three further arguments gives `[DB_SYSTEM_NAME = "redis", DB_OPERATION_NAME = "SADD"]`, and the empty command gives only the system attribute |
| `Common.SpanName` | src/common/mod.rs:161-163 | The span name is `"redis "` followed by as many characters as the operation has (true of the ASCII case mapping modelled here; Rust's `to_lowercase` can lengthen text), and none of them is an ASCII upper-case letter |
| `Common.SpanNameIgnoresCase` | src/common/mod.rs:161-163 | Upper- or lower-casing the operation first does not change the span name |
| `Common.SpanNameEqualIff` | src/common/mod.rs:161-163 | Two operations get the same span name exactly when their lower-case forms agree |
| `Common.SpanNameExamples` | src/lib.rs:254-260 | GET and get give "redis get"; SET, HGET and DEL give "redis set", "redis hget" and "redis del" |
| `Common.DisplayOperation` | src/common/mod.rs:212-213 | The displayed operation is the command's name when it has one, and "command" otherwise |
| `Common.DefaultOperationIffUnnamed` | src/common/mod.rs:197-214 | The displayed operation is "command" exactly when the command has no name, because real names are upper case |
| `Common.InitialFields` | src/common/mod.rs:216-222 | A command span starts with exactly `otel.name` (the span name of the operation), `db.system = "redis"` and `db.operation` (the operation) |
| `Common.CreateCommandSpan` | src/common/mod.rs:209-225 | The span is fresh, is created as "redis_command" with those initial fields, and the returned list equals the command's attribute list |
| `Common.CommandSpanExample` | src/lib.rs:262-275 | A GET command's span is named "redis get" and its list holds the system and operation attributes |
| `Common.UnnamedCommandSpan` | src/common/mod.rs:212-214 | A command without a name gets `db.operation = "command"` and the span name "redis command" |
| `Common.CommandSpanWithAttributes` | src/sync/mod.rs:141-145 | After its own list is applied, a command span holds its creation fields with their values (`otel.name` the span name, `db.system = "redis"`, `db.operation` the displayed operation) plus the semantic-convention system key and, when named, the operation key, with their values |
| `Common.FieldOf` | src/common/mod.rs:291-306 | An attribute value has a span field exactly when its kind is string, i64, f64 or bool, and that field carries the value's payload unchanged |
| `Common.ApplyOne` | src/common/mod.rs:291-306 | One attribute of a recordable kind sets its key to its field and adds only that key; an attribute of another kind changes nothing; every other key keeps its field |
| `Common.Applied` | src/common/mod.rs:289-309 | Applying a list never removes a key, and applying the empty list changes nothing |
| `Common.ApplySpanAttributes` | src/common/mod.rs:289-309 | The loop leaves the span's fields equal to the list folded over the old fields, one recordable attribute at a time |
| `Common.AppliedAppend` | src/common/mod.rs:290 | Applying a concatenation is applying the first list, then the second |
| `Common.AppliedKeys` | src/common/mod.rs:289-309 | Applying adds exactly the keys of the attributes with a recordable kind |
| `Common.AppliedLastWins` | src/common/mod.rs:290-303 | A key ends up holding the value of the last recordable-kind attribute under that key |
| `Common.AppliedUnlisted` | src/common/mod.rs:304-306 | A key with no recordable-kind attribute keeps its old field, or stays absent |
| `Common.SkipsUnrecordable` | src/common/mod.rs:304-306 | Removing an attribute of another kind from anywhere in the list changes nothing |
| `Common.ErrorTypeTag` | src/common/mod.rs:429-481 | A kind gets the tag "unknown" exactly when the documented list (lines 385-401) does not name it |
| `Common.ErrorTypeTagMatchesTable` | src/common/mod.rs:429-481 | The match gives each of the sixteen documented kinds its documented tag (the list at lines 385-401) |
| `Common.ErrorTypeTagsDistinct` | src/common/mod.rs:385-401 | Different documented kinds get different tags |
| `Common.ErrorTypeTagRange` | src/common/mod.rs:429-481 | Every kind's tag is one of the sixteen table tags or "unknown" |
| `Common.WithError` | src/common/mod.rs:422-482 | The error fields are exactly the old keys plus the five error keys: `error = true`, status "ERROR", message and description both the error's display text, and the classified type; every other key keeps its field |
| `Common.WithResult` | src/common/mod.rs:355-364 | The status code is "OK" on success and "ERROR" on failure; success adds only the status key, and failure sets `error = true` |
| `Common.WithResultAndContext` | src/common/mod.rs:528-543 | Success gives the plain result fields; failure adds the operation-context key, and the key-pattern key exactly when a pattern is supplied |
| `Common.RecordErrorOnSpan` | src/common/mod.rs:422-482 | The span's fields afterwards are the old ones with `error = true`, the message, status "ERROR", the description and the classified type |
| `Common.RecordCommandResult` | src/common/mod.rs:355-364 | On success the status "OK" is recorded; on failure the error fields are |
| `Common.RecordCommandResultWithContext` | src/common/mod.rs:528-543 | The result is recorded first; then, on failure only, the operation context, and the key pattern when one is supplied |
| `Common.SuccessRecording` | src/common/mod.rs:356-359 | Success adds only `otel.status_code = "OK"`: `error` is present afterwards exactly when it was before, and no other field changes |
| `Common.FailureRecording` | src/common/mod.rs:422-427 | Failure sets exactly the five error fields (flag, message, status "ERROR", description, classified type); every other field is unchanged |
| `Common.ContextRecording` | src/common/mod.rs:536-542 | Success gives the plain result fields. Failure adds exactly the operation-context key, plus the key-pattern key when a pattern is supplied. The context holds the operation and the pattern is recorded exactly as supplied. Without a pattern, an existing key-pattern field keeps its value. Every other result field is unchanged |
| `Utf8.Decode` | src/common/mod.rs:122 | A decoded text has at most as many characters as the bytes, and the bytes number at most four per character |
| `Utf8.DecodeEncode` | src/common/mod.rs:122 | The UTF-8 form of every text decodes back to that text |
| `Utf8.EncodeDecode` | src/common/mod.rs:122 | Every valid byte string is the UTF-8 form of the text it decodes to |
| `Utf8.ValidIffEncoded` | src/common/mod.rs:122 | A byte string is valid exactly when it is the UTF-8 form of some text |
| `Utf8.StrayContinuationRejected` | src/common/mod.rs:95-98 | The bytes 0, 159, 146, 150 are not UTF-8 |
| `Casing.ToUpper` | src/common/mod.rs:123 | Upper-casing keeps the length and maps each character on its own |
| `Casing.ToLower` | src/common/mod.rs:162 | Lower-casing keeps the length and maps each character on its own |
| `Casing.ToUpperFixedPoints` | src/common/mod.rs:123 | Upper-casing leaves no ASCII lower-case letter, and fixes exactly the texts without one |
| `Casing.ToLowerFixedPoints` | src/common/mod.rs:162 | Lower-casing leaves no ASCII upper-case letter, and fixes exactly the texts without one |
| `Casing.LowerForgetsCase` | src/common/mod.rs:162 | Lower-casing after upper- or lower-casing is the same as lower-casing alone |
| `Casing.UpperForgetsCase` | src/common/mod.rs:123 | Upper-casing after lower- or upper-casing is the same as upper-casing alone |
| `Redis.StrArg` | src/lib.rs:151 | The argument made from a text is raw bytes that decode back to that text |
| `Tracing.Span.Record` | src/common/mod.rs:293 | Recording sets one field to the value and leaves every other field as it was |
| `Tracing.Span.constructor` | src/common/mod.rs:217-222 | A new span has the given name and initial fields |

## Left out

- Connection wrappers (`src/sync/mod.rs`, `src/aio/mod.rs`): `req_command`, `req_packed_command(s)`, pipeline execution and the GET/SET/HSET convenience methods. They forward to the wrapped connection over the network and return its result unchanged. The pipeline spans there are fixed field literals.
- `src/client.rs` (connection construction) and the module wiring of `src/lib.rs`. Both are I/O plumbing. The tests of `src/lib.rs` appear only as the example lemmas above.
- Casing.ToUpper: covers ASCII letters only. Rust's `to_uppercase` uses the full Unicode tables, and those can change a text's length (ß becomes SS). Unicode case tables are outside this model.
- Casing.ToLower: covers ASCII letters only, for the same reason.
- The `tracing::warn!` call itself is not modelled. The predicate `Common.LogsWarning` states whether it fires, not how often. `create_command_span` names the command twice (once inside `extract_command_attributes`, once for the displayed operation), so a command whose first argument is not UTF-8 logs the warning twice per span; that count is not modelled.
- The tracing library's rule that recording a field the span did not declare at creation does nothing is not modelled. The model's span keeps every recorded field. A command span declares only `otel.name`, `db.system` and `db.operation`. Under that rule, the result recorder's fields and the semantic-convention attribute keys would not appear on it.
- Span entering and closing, the OpenTelemetry exporter, and concurrency are not modelled. Each call owns its own span.
- `f64` values are kept as an opaque 64-bit pattern. They are only stored, never computed with.
- The `Display` text of a redis error is an opaque string carried by the error value.
- Common.FailureRecording: does not prove that `error.message` is non-empty, because the display text is opaque here.
- The semantic-convention keys `DB_SYSTEM_NAME` and `DB_OPERATION_NAME` are given the values "db.system.name" and "db.operation.name". The proofs rely on these two keys differing from each other and from the span's own field names `otel.name`, `db.system` and `db.operation` (`Common.CommandSpanWithAttributes` uses all of these differences).
- `Redis.ErrorKind` lists the sixteen classified kinds and a selection of the client's other kinds. The semantic-conventions crate and the redis crate are not part of this model. The classification maps every kind outside the sixteen to "unknown" through the match's `case _` fallback, so a kind added to the list would get "unknown" as well.
