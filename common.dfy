/**
  The command telemetry engine: it names a redis command, derives its
  attributes, names and creates its span, copies typed attributes onto the
  span, and records the command's outcome with a classified error type.
*/
module Common {
  import opened Prelude
  import Utf8
  import opened Casing
  import opened Redis
  import opened Otel
  import opened Tracing

  // ---------------------------------------------------------------------
  // Command name
  // ---------------------------------------------------------------------

  /**
    `get_command_name`: the upper-cased first argument when it is UTF-8
    text, "SCAN" when it is a cursor marker, and nothing for an empty
    command or a first argument that is not UTF-8.
  */
  function CommandName(cmd: Command): (r: Option<string>)
    ensures r.Some? <==> |cmd| > 0 && (cmd[0].Cursor? || Utf8.Valid(cmd[0].bytes))
    ensures r.Some? ==> NoAsciiLower(r.value)
  {
    if |cmd| == 0 then None
    else
      match cmd[0]
      case Cursor =>
        assert NoAsciiLower("SCAN");
        Some("SCAN")
      case Simple(bytes) =>
        match Utf8.Decode(bytes)
        case Some(text) =>
          ToUpperFixedPoints(text);
          Some(ToUpper(text))
        case None => None
  }

  /** Whether naming `cmd` logs the warning that its first argument is not UTF-8. */
  predicate LogsWarning(cmd: Command)
    ensures LogsWarning(cmd) ==> CommandName(cmd).None?
    ensures !LogsWarning(cmd) && |cmd| > 0 ==> CommandName(cmd).Some?
  {
    |cmd| > 0 && cmd[0].Simple? && !Utf8.Valid(cmd[0].bytes)
  }

  /** The warning is logged exactly when a non-empty command gets no name. */
  lemma WarningIffUnnamed(cmd: Command)
    ensures LogsWarning(cmd) <==> |cmd| > 0 && CommandName(cmd).None?
  {
  }

  /** A first argument whose bytes decode to the text `s` names the command `ToUpper(s)`, whatever follows it. */
  lemma CommandNameOfDecoded(bytes: seq<Utf8.byte>, s: string, rest: Command)
    requires Utf8.Decode(bytes) == Some(s)
    ensures CommandName([Simple(bytes)] + rest) == Some(ToUpper(s))
    ensures !LogsWarning([Simple(bytes)] + rest)
  {
    assert ([Simple(bytes)] + rest)[0] == Simple(bytes);
  }

  /** A first argument made from the text `s` names the command `ToUpper(s)`, whatever follows it. */
  lemma CommandNameOfText(s: string, rest: Command)
    ensures CommandName([StrArg(s)] + rest) == Some(ToUpper(s))
  {
    CommandNameOfDecoded(StrArg(s).bytes, s, rest);
  }

  /** A first argument that is not UTF-8 gives no name, whatever follows it. */
  lemma CommandNameOfInvalid(bytes: seq<Utf8.byte>, rest: Command)
    requires !Utf8.Valid(bytes)
    ensures CommandName([Simple(bytes)] + rest) == None
    ensures LogsWarning([Simple(bytes)] + rest)
  {
    assert ([Simple(bytes)] + rest)[0] == Simple(bytes);
  }

  /** Only the first argument matters to the name. */
  lemma CommandNameFirstArgOnly(a: Arg, rest1: Command, rest2: Command)
    ensures CommandName([a] + rest1) == CommandName([a] + rest2)
  {
    assert ([a] + rest1)[0] == a == ([a] + rest2)[0];
  }

  /** The cursor marker names a SCAN, whatever follows it. */
  lemma CommandNameOfCursor(rest: Command)
    ensures CommandName([Cursor] + rest) == Some("SCAN")
  {
    assert ([Cursor] + rest)[0] == Cursor;
  }

  /**
    The documented examples: GET (with any further argument), a cursor, bytes
    that are not UTF-8, and the empty command.
  */
  lemma CommandNameExamples(key: Arg)
    ensures CommandName([StrArg("GET"), key]) == Some("GET")
    ensures CommandName([Cursor]) == Some("SCAN")
    ensures CommandName([Simple([0, 159, 146, 150])]) == None
    ensures CommandName([]) == None
  {
    assert CommandName([StrArg("GET"), key]) == Some("GET") by {
      assert [StrArg("GET"), key] == [StrArg("GET")] + [key];
      CommandNameOfText("GET", [key]);
      ToUpperFixedPoints("GET");
    }
    Utf8.StrayContinuationRejected();
  }

  /** The documented lower-case example: "get" (with any further argument) names GET. */
  lemma CommandNameLowerCaseExample(key: Arg)
    ensures CommandName([StrArg("get"), key]) == Some("GET")
  {
    assert [StrArg("get"), key] == [StrArg("get")] + [key];
    CommandNameOfText("get", [key]);
    assert ToUpper("get") == "GET";
  }

  // ---------------------------------------------------------------------
  // Command attributes
  // ---------------------------------------------------------------------

  /** `db.system = "redis"`, the attribute every command gets. */
  const SYSTEM_ATTRIBUTE: KeyValue := KeyValue(DB_SYSTEM_NAME, String("redis"))

  /** The attribute list for an optional command name: the system attribute, then the operation if there is one. */
  function AttributeList(name: Option<string>): seq<KeyValue> {
    [SYSTEM_ATTRIBUTE] + if name.Some? then [KeyValue(DB_OPERATION_NAME, String(name.value))] else []
  }

  /** The attribute list `extract_command_attributes` builds for `cmd`. */
  function CommandAttributes(cmd: Command): (r: seq<KeyValue>)
    ensures 1 <= |r| <= 2 && r[0] == SYSTEM_ATTRIBUTE
    ensures |r| == 2 <==> CommandName(cmd).Some?
    ensures |r| == 2 ==> r[1] == KeyValue(DB_OPERATION_NAME, String(CommandName(cmd).value))
  {
    AttributeList(CommandName(cmd))
  }

  /** `extract_command_attributes`: start from the system attribute and push the operation when there is a name. */
  method ExtractCommandAttributes(cmd: Command) returns (attributes: seq<KeyValue>)
    ensures attributes == CommandAttributes(cmd)
  {
    attributes := [SYSTEM_ATTRIBUTE];
    var name := CommandName(cmd);
    if name.Some? {
      attributes := attributes + [KeyValue(DB_OPERATION_NAME, String(name.value))];
    }
  }

  /** An attribute list has an operation attribute exactly when the command has a name, and it carries that name. */
  lemma OperationAttributeIffNamed(cmd: Command)
    ensures (exists i :: 0 <= i < |CommandAttributes(cmd)| && CommandAttributes(cmd)[i].key == DB_OPERATION_NAME)
            <==> CommandName(cmd).Some?
    ensures forall i :: (0 <= i < |CommandAttributes(cmd)| && CommandAttributes(cmd)[i].key == DB_OPERATION_NAME
                         ==> CommandAttributes(cmd)[i].value == String(CommandName(cmd).value))
  {
    var r := CommandAttributes(cmd);
    assert r[0].key == DB_SYSTEM_NAME != DB_OPERATION_NAME;
    if CommandName(cmd).Some? {
      assert r[1].key == DB_OPERATION_NAME;
    }
  }

  /** The attribute tests: SADD with three further arguments (whatever they are), and the empty command. */
  lemma AttributeExamples(key: Arg, member1: Arg, member2: Arg)
    ensures CommandAttributes([StrArg("SADD"), key, member1, member2])
            == [SYSTEM_ATTRIBUTE, KeyValue(DB_OPERATION_NAME, String("SADD"))]
    ensures CommandAttributes([]) == [SYSTEM_ATTRIBUTE]
  {
    var sadd := StrArg("SADD");
    var rest := [key, member1, member2];
    var cmd := [sadd] + rest;
    assert cmd == [StrArg("SADD"), key, member1, member2];
    assert CommandName(cmd) == Some("SADD") by {
      CommandNameOfText("SADD", rest);
      ToUpperFixedPoints("SADD");
    }
    assert CommandAttributes(cmd) == AttributeList(Some("SADD"));
    assert CommandAttributes([]) == AttributeList(None);
  }

  // ---------------------------------------------------------------------
  // Span name and span factory
  // ---------------------------------------------------------------------

  const SPAN_PREFIX: string := "redis "

  /** `generate_span_name`: "redis " followed by the lower-cased operation. */
  function SpanName(operation: string): (r: string)
    ensures |r| == |SPAN_PREFIX| + |operation| && r[..|SPAN_PREFIX|] == SPAN_PREFIX
    ensures NoAsciiUpper(r[|SPAN_PREFIX|..])
  {
    ToLowerFixedPoints(operation);
    assert (SPAN_PREFIX + ToLower(operation))[|SPAN_PREFIX|..] == ToLower(operation);
    SPAN_PREFIX + ToLower(operation)
  }

  /** The span name does not depend on the case of the operation. */
  lemma SpanNameIgnoresCase(operation: string)
    ensures SpanName(ToUpper(operation)) == SpanName(operation)
    ensures SpanName(ToLower(operation)) == SpanName(operation)
  {
    LowerForgetsCase(operation);
  }

  /** Two operations get the same span name exactly when they agree up to case. */
  lemma SpanNameEqualIff(a: string, b: string)
    ensures SpanName(a) == SpanName(b) <==> ToLower(a) == ToLower(b)
  {
    if SpanName(a) == SpanName(b) {
      assert SpanName(a)[|SPAN_PREFIX|..] == ToLower(a);
      assert SpanName(b)[|SPAN_PREFIX|..] == ToLower(b);
    }
  }

  /** The span-name tests. */
  lemma SpanNameExamples()
    ensures SpanName("GET") == "redis get" && SpanName("get") == "redis get"
    ensures SpanName("SET") == "redis set"
    ensures SpanName("HGET") == "redis hget"
    ensures SpanName("DEL") == "redis del"
  {
    assert ToLower("GET") == "get";
    ToLowerFixedPoints("get");
    assert ToLower("SET") == "set";
    assert ToLower("HGET") == "hget";
    assert ToLower("DEL") == "del";
  }

  /** The operation the span displays: the command's name, or "command" when it has none. */
  function DisplayOperation(cmd: Command): (op: string)
    ensures CommandName(cmd).Some? ==> op == CommandName(cmd).value
    ensures CommandName(cmd).None? ==> op == "command"
  {
    CommandName(cmd).GetOr("command")
  }

  /** The default shows through exactly when there is no name: a real name is upper case and cannot be "command". */
  lemma DefaultOperationIffUnnamed(cmd: Command)
    ensures DisplayOperation(cmd) == "command" <==> CommandName(cmd).None?
  {
    if CommandName(cmd).Some? {
      var name := CommandName(cmd).value;
      assert |name| == 0 || !IsAsciiLower(name[0]);
      assert IsAsciiLower("command"[0]);
    }
  }

  /** The name every command span is created under. */
  const COMMAND_SPAN: string := "redis_command"

  /** The span's own field names. */
  const OTEL_NAME: string := "otel.name"
  const DB_SYSTEM: string := "db.system"
  const DB_OPERATION: string := "db.operation"

  /** The fields a command span starts with, for the displayed operation `op`. */
  function InitialFields(op: string): (m: map<string, FieldValue>)
    ensures m.Keys == {OTEL_NAME, DB_SYSTEM, DB_OPERATION}
    ensures m[OTEL_NAME] == Str(SpanName(op)) && m[DB_SYSTEM] == Str("redis") && m[DB_OPERATION] == Str(op)
  {
    map[OTEL_NAME := Str(SpanName(op)), DB_SYSTEM := Str("redis"), DB_OPERATION := Str(op)]
  }

  /** `create_command_span`: a fresh span with the initial fields, and the command's attribute list. */
  method CreateCommandSpan(cmd: Command) returns (span: Span, attributes: seq<KeyValue>)
    ensures fresh(span) && span.name == COMMAND_SPAN
    ensures span.fields == InitialFields(DisplayOperation(cmd))
    ensures attributes == CommandAttributes(cmd)
  {
    attributes := ExtractCommandAttributes(cmd);
    var operation := CommandName(cmd).GetOr("command");
    var spanName := SpanName(operation);
    span := new Span(COMMAND_SPAN, map[OTEL_NAME := Str(spanName), DB_SYSTEM := Str("redis"), DB_OPERATION := Str(operation)]);
  }

  /** The span-factory test: a GET command gets span name "redis get" and both attributes. */
  lemma CommandSpanExample()
    ensures InitialFields(DisplayOperation([StrArg("GET"), StrArg("test_key")]))[OTEL_NAME] == Str("redis get")
    ensures CommandAttributes([StrArg("GET"), StrArg("test_key")])
            == [SYSTEM_ATTRIBUTE, KeyValue(DB_OPERATION_NAME, String("GET"))]
  {
    CommandNameExamples(StrArg("test_key"));
    SpanNameExamples();
  }

  /** An unnamed command's span shows the operation "command" under the span name "redis command". */
  lemma UnnamedCommandSpan(cmd: Command)
    requires CommandName(cmd).None?
    ensures InitialFields(DisplayOperation(cmd))[DB_OPERATION] == Str("command")
    ensures InitialFields(DisplayOperation(cmd))[OTEL_NAME] == Str("redis command")
  {
    assert DisplayOperation(cmd) == "command";
    assert SpanName("command") == "redis command" by {
      ToLowerFixedPoints("command");
    }
  }

  // ---------------------------------------------------------------------
  // Applying attributes to a span
  // ---------------------------------------------------------------------

  /** The value kinds a span field can take: strings, 64-bit integers and floats, and booleans. */
  predicate Recordable(v: Value) {
    v.String? || v.I64? || v.F64? || v.Bool?
  }

  /** The field an attribute value is recorded as, if it has a recordable kind. */
  function FieldOf(v: Value): (r: Option<FieldValue>)
    ensures r.Some? <==> Recordable(v)
    ensures v.String? ==> r == Some(Str(v.s))
    ensures v.I64? ==> r == Some(Int(v.i))
    ensures v.F64? ==> r == Some(Float(v.f))
    ensures v.Bool? ==> r == Some(Flag(v.b))
  {
    match v
    case String(s) => Some(Str(s))
    case I64(i) => Some(Int(i))
    case F64(f) => Some(Float(f))
    case Bool(b) => Some(Flag(b))
    case Array(_) => None
  }

  /** One step of `apply_span_attributes`: record the attribute if its kind is recordable. */
  function ApplyOne(fields: map<string, FieldValue>, attribute: KeyValue): (r: map<string, FieldValue>)
    ensures r.Keys == fields.Keys + (if Recordable(attribute.value) then {attribute.key} else {})
    ensures Recordable(attribute.value) ==> r[attribute.key] == FieldOf(attribute.value).value
    ensures !Recordable(attribute.value) ==> r == fields
    ensures forall k :: k in fields && k != attribute.key ==> r[k] == fields[k]
  {
    match FieldOf(attribute.value)
    case Some(f) => fields[attribute.key := f]
    case None => fields
  }

  /** The fields after applying `attributes` in order to `fields`. */
  function Applied(fields: map<string, FieldValue>, attributes: seq<KeyValue>): (r: map<string, FieldValue>)
    ensures fields.Keys <= r.Keys
    ensures attributes == [] ==> r == fields
    decreases |attributes|
  {
    if attributes == [] then fields
    else ApplyOne(Applied(fields, attributes[..|attributes| - 1]), attributes[|attributes| - 1])
  }

  /** `apply_span_attributes`: record each attribute of a recordable kind under its key, in list order. */
  method ApplySpanAttributes(span: Span, attributes: seq<KeyValue>)
    modifies span
    ensures span.fields == Applied(old(span.fields), attributes)
  {
    ghost var start := span.fields;
    for i := 0 to |attributes|
      invariant span.fields == Applied(start, attributes[..i])
    {
      var attribute := attributes[i];
      assert attributes[..i + 1][..i] == attributes[..i];
      match attribute.value {
        case String(s) => span.Record(attribute.key, Str(s));
        case I64(n) => span.Record(attribute.key, Int(n));
        case F64(f) => span.Record(attribute.key, Float(f));
        case Bool(b) => span.Record(attribute.key, Flag(b));
        case Array(_) =>
      }
    }
    assert attributes[..|attributes|] == attributes;
  }

  /** Applying a concatenation is applying one list after the other. */
  lemma {:induction false} AppliedAppend(fields: map<string, FieldValue>, a: seq<KeyValue>, b: seq<KeyValue>)
    ensures Applied(fields, a + b) == Applied(Applied(fields, a), b)
    decreases |b|
  {
    if b == [] {
      assert a + b == a;
    } else {
      var b' := b[..|b| - 1];
      assert (a + b)[..|a + b| - 1] == a + b';
      assert (a + b)[|a + b| - 1] == b[|b| - 1];
      AppliedAppend(fields, a, b');
    }
  }

  /** The keys a list records: those of its attributes with a recordable kind. */
  function RecordedKeys(attributes: seq<KeyValue>): set<string> {
    set i | 0 <= i < |attributes| && Recordable(attributes[i].value) :: attributes[i].key
  }

  /** Applying adds exactly the recorded keys. */
  lemma {:induction false} AppliedKeys(fields: map<string, FieldValue>, attributes: seq<KeyValue>)
    ensures Applied(fields, attributes).Keys == fields.Keys + RecordedKeys(attributes)
    decreases |attributes|
  {
    if attributes != [] {
      var n := |attributes| - 1;
      var front := attributes[..n];
      AppliedKeys(fields, front);
      assert RecordedKeys(attributes)
          == RecordedKeys(front) + (if Recordable(attributes[n].value) then {attributes[n].key} else {}) by {
        forall k | k in RecordedKeys(attributes)
          ensures k in RecordedKeys(front) + (if Recordable(attributes[n].value) then {attributes[n].key} else {})
        {
          var i :| 0 <= i < |attributes| && Recordable(attributes[i].value) && attributes[i].key == k;
          if i < n { assert front[i] == attributes[i]; }
        }
        forall k | k in RecordedKeys(front)
          ensures k in RecordedKeys(attributes)
        {
          var i :| 0 <= i < |front| && Recordable(front[i].value) && front[i].key == k;
          assert attributes[i] == front[i];
        }
      }
    }
  }

  /** The last attribute of a recordable kind under a key decides that key's field. */
  lemma {:induction false} AppliedLastWins(fields: map<string, FieldValue>, attributes: seq<KeyValue>, j: nat)
    requires j < |attributes| && Recordable(attributes[j].value)
    requires forall i :: j < i < |attributes| && attributes[i].key == attributes[j].key ==> !Recordable(attributes[i].value)
    ensures attributes[j].key in Applied(fields, attributes)
    ensures Applied(fields, attributes)[attributes[j].key] == FieldOf(attributes[j].value).value
    decreases |attributes|
  {
    var n := |attributes| - 1;
    if j < n {
      var front := attributes[..n];
      assert front[j] == attributes[j];
      AppliedLastWins(fields, front, j);
    }
  }

  /** A key with no attribute of a recordable kind keeps its old field, or stays absent. */
  lemma {:induction false} AppliedUnlisted(fields: map<string, FieldValue>, attributes: seq<KeyValue>, k: string)
    requires forall i :: 0 <= i < |attributes| && attributes[i].key == k ==> !Recordable(attributes[i].value)
    ensures k in Applied(fields, attributes) <==> k in fields
    ensures k in fields ==> Applied(fields, attributes)[k] == fields[k]
    decreases |attributes|
  {
    if attributes != [] {
      var n := |attributes| - 1;
      var front := attributes[..n];
      assert forall i :: 0 <= i < |front| ==> front[i] == attributes[i];
      AppliedUnlisted(fields, front, k);
    }
  }

  /** An attribute of an unrecordable kind can be dropped from the list without any effect. */
  lemma SkipsUnrecordable(fields: map<string, FieldValue>, a: seq<KeyValue>, x: KeyValue, b: seq<KeyValue>)
    requires !Recordable(x.value)
    ensures Applied(fields, a + [x] + b) == Applied(fields, a + b)
  {
    AppliedAppend(fields, a + [x], b);
    AppliedAppend(fields, a, b);
    assert (a + [x])[..|a + [x]| - 1] == a;
  }

  /**
    A command span after its own attribute list is applied: the attributes
    land under the semantic-convention keys, beside the span's creation fields.
  */
  lemma CommandSpanWithAttributes(cmd: Command)
    ensures var fields := Applied(InitialFields(DisplayOperation(cmd)), CommandAttributes(cmd));
      && fields.Keys == {OTEL_NAME, DB_SYSTEM, DB_OPERATION, DB_SYSTEM_NAME}
                        + (if CommandName(cmd).Some? then {DB_OPERATION_NAME} else {})
      && fields[DB_SYSTEM_NAME] == Str("redis")
      && fields[OTEL_NAME] == Str(SpanName(DisplayOperation(cmd)))
      && fields[DB_SYSTEM] == Str("redis")
      && fields[DB_OPERATION] == Str(DisplayOperation(cmd))
      && (CommandName(cmd).Some? ==> fields[DB_OPERATION_NAME] == Str(CommandName(cmd).value))
  {
    var start := InitialFields(DisplayOperation(cmd));
    AttributesOnSpanFields(start, CommandName(cmd));
  }

  /** Applying that list to fields under the span's own names adds the convention keys and keeps the rest. */
  lemma AttributesOnSpanFields(start: map<string, FieldValue>, name: Option<string>)
    requires start.Keys == {OTEL_NAME, DB_SYSTEM, DB_OPERATION}
    ensures Applied(start, AttributeList(name)).Keys
            == start.Keys + {DB_SYSTEM_NAME} + (if name.Some? then {DB_OPERATION_NAME} else {})
    ensures Applied(start, AttributeList(name))[DB_SYSTEM_NAME] == Str("redis")
    ensures forall k :: k in start ==> Applied(start, AttributeList(name))[k] == start[k]
    ensures name.Some? ==> Applied(start, AttributeList(name))[DB_OPERATION_NAME] == Str(name.value)
  {
    ConventionKeysDistinct();
    var withSystem := ApplyOne(start, SYSTEM_ATTRIBUTE);
    assert Applied(start, [SYSTEM_ATTRIBUTE]) == withSystem by {
      assert [SYSTEM_ATTRIBUTE][..0] == [];
    }
    var attributes := AttributeList(name);
    if name.Some? {
      assert attributes[..1] == [SYSTEM_ATTRIBUTE];
    } else {
      assert attributes == [SYSTEM_ATTRIBUTE];
    }
  }

  /** The semantic-convention keys differ from the span's own field names and from each other. */
  lemma ConventionKeysDistinct()
    ensures DB_SYSTEM_NAME != OTEL_NAME && DB_SYSTEM_NAME != DB_SYSTEM && DB_SYSTEM_NAME != DB_OPERATION
    ensures DB_OPERATION_NAME != OTEL_NAME && DB_OPERATION_NAME != DB_SYSTEM
    ensures DB_OPERATION_NAME != DB_OPERATION && DB_OPERATION_NAME != DB_SYSTEM_NAME
  {
    assert |DB_SYSTEM_NAME| == 14 && |DB_OPERATION_NAME| == 17;
    assert |OTEL_NAME| == 9 && |DB_SYSTEM| == 9 && |DB_OPERATION| == 12;
  }

  // ---------------------------------------------------------------------
  // Error classification
  // ---------------------------------------------------------------------

  /** The error-type tag for a kind: one fixed tag for each of sixteen kinds, "unknown" for the rest. */
  function ErrorTypeTag(kind: ErrorKind): (tag: string)
    ensures Classified(kind) <==> tag != "unknown"
  {
    match kind
    case ResponseError => assert CLASSIFIED[0].0 == kind; "response_error"
    case AuthenticationFailed => assert CLASSIFIED[1].0 == kind; "authentication_failed"
    case TypeError => assert CLASSIFIED[2].0 == kind; "type_error"
    case ExecAbortError => assert CLASSIFIED[3].0 == kind; "exec_abort_error"
    case BusyLoadingError => assert CLASSIFIED[4].0 == kind; "busy_loading_error"
    case NoScriptError => assert CLASSIFIED[5].0 == kind; "no_script_error"
    case InvalidClientConfig => assert CLASSIFIED[6].0 == kind; "invalid_client_config"
    case Moved => assert CLASSIFIED[7].0 == kind; "moved"
    case Ask => assert CLASSIFIED[8].0 == kind; "ask"
    case TryAgain => assert CLASSIFIED[9].0 == kind; "try_again"
    case ClusterDown => assert CLASSIFIED[10].0 == kind; "cluster_down"
    case CrossSlot => assert CLASSIFIED[11].0 == kind; "cross_slot"
    case MasterDown => assert CLASSIFIED[12].0 == kind; "master_down"
    case IoError => assert CLASSIFIED[13].0 == kind; "io_error"
    case ClientError => assert CLASSIFIED[14].0 == kind; "client_error"
    case ExtensionError => assert CLASSIFIED[15].0 == kind; "extension_error"
    case _ => "unknown"
  }

  /** The classification as documented: each named kind with its tag. */
  const CLASSIFIED: seq<(ErrorKind, string)> := [
    (ResponseError, "response_error"),
    (AuthenticationFailed, "authentication_failed"),
    (TypeError, "type_error"),
    (ExecAbortError, "exec_abort_error"),
    (BusyLoadingError, "busy_loading_error"),
    (NoScriptError, "no_script_error"),
    (InvalidClientConfig, "invalid_client_config"),
    (Moved, "moved"),
    (Ask, "ask"),
    (TryAgain, "try_again"),
    (ClusterDown, "cluster_down"),
    (CrossSlot, "cross_slot"),
    (MasterDown, "master_down"),
    (IoError, "io_error"),
    (ClientError, "client_error"),
    (ExtensionError, "extension_error")
  ]

  /** Whether the documented table names `kind`. */
  predicate Classified(kind: ErrorKind) {
    exists i :: 0 <= i < |CLASSIFIED| && CLASSIFIED[i].0 == kind
  }

  /** The match agrees with the documented table, entry by entry. */
  lemma ErrorTypeTagMatchesTable()
    ensures forall i :: 0 <= i < |CLASSIFIED| ==> ErrorTypeTag(CLASSIFIED[i].0) == CLASSIFIED[i].1
  {
    forall i | 0 <= i < |CLASSIFIED|
      ensures ErrorTypeTag(CLASSIFIED[i].0) == CLASSIFIED[i].1
    {
      if i < 8 {
        assert i in {0, 1, 2, 3, 4, 5, 6, 7};
      } else {
        assert i in {8, 9, 10, 11, 12, 13, 14, 15};
      }
    }
  }

  /** The sixteen named kinds get sixteen different tags. */
  lemma ErrorTypeTagsDistinct(k1: ErrorKind, k2: ErrorKind)
    requires Classified(k1) && Classified(k2) && k1 != k2
    ensures ErrorTypeTag(k1) != ErrorTypeTag(k2)
  {
  }

  /** Every tag is one of the sixteen table tags or "unknown". */
  lemma ErrorTypeTagRange(kind: ErrorKind)
    ensures ErrorTypeTag(kind) == "unknown" || exists i :: 0 <= i < |CLASSIFIED| && CLASSIFIED[i].1 == ErrorTypeTag(kind)
  {
    ErrorTypeTagMatchesTable();
  }

  // ---------------------------------------------------------------------
  // Recording results
  // ---------------------------------------------------------------------

  const ERROR: string := "error"
  const ERROR_MESSAGE: string := "error.message"
  const ERROR_TYPE: string := "error.type"
  const STATUS_CODE: string := "otel.status_code"
  const STATUS_DESCRIPTION: string := "otel.status_description"
  const OPERATION_CONTEXT: string := "redis.operation_context"
  const KEY_PATTERN: string := "redis.key_pattern"

  /** The fields after `record_error_on_span`. */
  function WithError(fields: map<string, FieldValue>, err: RedisError): (r: map<string, FieldValue>)
    ensures r.Keys == fields.Keys + {ERROR, ERROR_MESSAGE, STATUS_CODE, STATUS_DESCRIPTION, ERROR_TYPE}
    ensures r[ERROR] == Flag(true) && r[STATUS_CODE] == Str("ERROR")
    ensures r[ERROR_MESSAGE] == r[STATUS_DESCRIPTION] == Str(err.display)
    ensures r[ERROR_TYPE] == Str(ErrorTypeTag(err.kind))
    ensures forall k :: (k in fields && k !in {ERROR, ERROR_MESSAGE, STATUS_CODE, STATUS_DESCRIPTION, ERROR_TYPE}
                         ==> r[k] == fields[k])
  {
    fields[ERROR := Flag(true)]
          [ERROR_MESSAGE := Str(err.display)]
          [STATUS_CODE := Str("ERROR")]
          [STATUS_DESCRIPTION := Str(err.display)]
          [ERROR_TYPE := Str(ErrorTypeTag(err.kind))]
  }

  /** The fields after `record_command_result`. */
  function WithResult<T>(fields: map<string, FieldValue>, result: RedisResult<T>): (r: map<string, FieldValue>)
    ensures STATUS_CODE in r && r[STATUS_CODE] == Str(if result.Ok? then "OK" else "ERROR")
    ensures result.Ok? ==> r.Keys == fields.Keys + {STATUS_CODE}
    ensures result.Err? ==> ERROR in r && r[ERROR] == Flag(true)
  {
    match result
    case Ok(_) => fields[STATUS_CODE := Str("OK")]
    case Err(err) => WithError(fields, err)
  }

  /** The fields after `record_command_result_with_context`. */
  function WithResultAndContext<T>(fields: map<string, FieldValue>, result: RedisResult<T>,
                                   operation: string, keyInfo: Option<string>): (r: map<string, FieldValue>)
    ensures result.Ok? ==> r == WithResult(fields, result)
    ensures result.Err? ==> r.Keys == WithResult(fields, result).Keys + {OPERATION_CONTEXT}
                                      + (if keyInfo.Some? then {KEY_PATTERN} else {})
  {
    var recorded := WithResult(fields, result);
    if result.Ok? then recorded
    else
      var withOperation := recorded[OPERATION_CONTEXT := Str(operation)];
      match keyInfo
      case Some(key) => withOperation[KEY_PATTERN := Str(key)]
      case None => withOperation
  }

  /** `record_error_on_span`: mark the span failed, with the error's text and its classified type. */
  method RecordErrorOnSpan(span: Span, err: RedisError)
    modifies span
    ensures span.fields == WithError(old(span.fields), err)
  {
    span.Record(ERROR, Flag(true));
    span.Record(ERROR_MESSAGE, Str(err.display));
    span.Record(STATUS_CODE, Str("ERROR"));
    span.Record(STATUS_DESCRIPTION, Str(err.display));
    span.Record(ERROR_TYPE, Str(ErrorTypeTag(err.kind)));
  }

  /** `record_command_result`: status "OK" on success, the error fields on failure. */
  method RecordCommandResult<T>(span: Span, result: RedisResult<T>)
    modifies span
    ensures span.fields == WithResult(old(span.fields), result)
  {
    match result {
      case Ok(_) => span.Record(STATUS_CODE, Str("OK"));
      case Err(err) => RecordErrorOnSpan(span, err);
    }
  }

  /** `record_command_result_with_context`: the result, and on failure the operation and the optional key pattern. */
  method RecordCommandResultWithContext<T>(span: Span, result: RedisResult<T>, operation: string, keyInfo: Option<string>)
    modifies span
    ensures span.fields == WithResultAndContext(old(span.fields), result, operation, keyInfo)
  {
    RecordCommandResult(span, result);
    if result.Err? {
      span.Record(OPERATION_CONTEXT, Str(operation));
      if keyInfo.Some? {
        span.Record(KEY_PATTERN, Str(keyInfo.value));
      }
    }
  }

  /** Success sets the status "OK", leaves `error` as it was, and changes no other field. */
  lemma SuccessRecording<T>(fields: map<string, FieldValue>, value: T)
    ensures WithResult(fields, Ok(value)).Keys == fields.Keys + {STATUS_CODE}
    ensures WithResult(fields, Ok(value))[STATUS_CODE] == Str("OK")
    ensures ERROR in WithResult(fields, Ok(value)) <==> ERROR in fields
    ensures forall k :: k in fields && k != STATUS_CODE ==> WithResult(fields, Ok(value))[k] == fields[k]
  {
  }

  /** Failure sets the five error fields, the type drawn from the tag set, and changes no other field. */
  lemma FailureRecording<T>(fields: map<string, FieldValue>, err: RedisError)
    ensures var m := WithResult<T>(fields, Err(err));
      && m.Keys == fields.Keys + {ERROR, ERROR_MESSAGE, STATUS_CODE, STATUS_DESCRIPTION, ERROR_TYPE}
      && m[ERROR] == Flag(true)
      && m[ERROR_MESSAGE] == Str(err.display)
      && m[STATUS_CODE] == Str("ERROR")
      && m[STATUS_DESCRIPTION] == Str(err.display)
      && m[ERROR_TYPE] == Str(ErrorTypeTag(err.kind))
      && (forall k :: k in fields && k !in {ERROR, ERROR_MESSAGE, STATUS_CODE, STATUS_DESCRIPTION, ERROR_TYPE}
                      ==> m[k] == fields[k])
  {
  }

  /** The context is added on failure only; the key pattern only when the caller supplies one, and as supplied. */
  lemma ContextRecording<T>(fields: map<string, FieldValue>, result: RedisResult<T>, operation: string, keyInfo: Option<string>)
    ensures result.Ok? ==> WithResultAndContext(fields, result, operation, keyInfo) == WithResult(fields, result)
    ensures result.Err? ==> WithResultAndContext(fields, result, operation, keyInfo)[OPERATION_CONTEXT] == Str(operation)
    ensures result.Err? && keyInfo.Some? ==>
      WithResultAndContext(fields, result, operation, keyInfo)[KEY_PATTERN] == Str(keyInfo.value)
    ensures result.Err? && keyInfo.None? ==>
      (KEY_PATTERN in WithResultAndContext(fields, result, operation, keyInfo) <==> KEY_PATTERN in fields)
    ensures result.Err? && keyInfo.None? && KEY_PATTERN in fields ==>
      WithResultAndContext(fields, result, operation, keyInfo)[KEY_PATTERN] == fields[KEY_PATTERN]
    ensures result.Err? ==>
      (WithResultAndContext(fields, result, operation, keyInfo).Keys
       == WithResult(fields, result).Keys + {OPERATION_CONTEXT} + (if keyInfo.Some? then {KEY_PATTERN} else {}))
    ensures forall k :: (k in WithResult(fields, result) && k != OPERATION_CONTEXT && k != KEY_PATTERN
                         ==> WithResultAndContext(fields, result, operation, keyInfo)[k] == WithResult(fields, result)[k])
  {
  }
}
