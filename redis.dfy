/** The parts of the redis client's types that the telemetry engine reads. */
module Redis {
  import Utf8

  /** One argument of a command: raw bytes, or the marker a SCAN-family call leaves for its cursor. */
  datatype Arg = Simple(bytes: seq<Utf8.byte>) | Cursor

  /** A command is its ordered argument list; the first argument is normally the command word. */
  type Command = seq<Arg>

  /** The argument that `cmd.arg(s)` appends for a Rust string slice `s`: its UTF-8 bytes. */
  function StrArg(s: string): (a: Arg)
    ensures a.Simple? && Utf8.Decode(a.bytes).Some? && Utf8.Decode(a.bytes).value == s
  {
    Utf8.DecodeEncode(s);
    Simple(Utf8.Encode(s))
  }

  /** The failure categories of the redis client. */
  datatype ErrorKind =
    | ResponseError
    | ParseError
    | AuthenticationFailed
    | TypeError
    | ExecAbortError
    | BusyLoadingError
    | NoScriptError
    | InvalidClientConfig
    | Moved
    | Ask
    | TryAgain
    | ClusterDown
    | CrossSlot
    | MasterDown
    | IoError
    | ClientError
    | ExtensionError
    | ReadOnly
    | MasterNameNotFoundBySentinel
    | NoValidReplicasFoundBySentinel
    | EmptySentinelList
    | NotBusy
    | ClusterConnectionNotFound

  /** A client error: its kind and the text its `Display` implementation prints. */
  datatype RedisError = RedisError(kind: ErrorKind, display: string)

  /** The outcome of a command; the success value is opaque to the engine. */
  datatype RedisResult<T> = Ok(value: T) | Err(error: RedisError)
}
