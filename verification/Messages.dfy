/**
 rfc5424/syslog_message.go: the message the parser returns and the builder
 fills, the parser's draft of one, and the step between them.
 */
module Messages {
  import opened Bytes
  import opened Timestamps

  type Params = map<bytes, bytes>
  type StructuredData = map<bytes, Params>

  predicate InBetween(val: int, min: int, max: int) {
    min <= val <= max
  }

  predicate ValidPriority(priority: int) {
    InBetween(priority, 0, 191)
  }

  predicate ValidVersion(version: int) {
    InBetween(version, 1, 999)
  }

  datatype Message = Message(
    priority: Option<byte>, facility: Option<byte>, severity: Option<byte>,
    version: nat,
    timestamp: Option<Timestamp>,
    hostname: Option<bytes>, appname: Option<bytes>, procID: Option<bytes>, msgID: Option<bytes>,
    structuredData: Option<StructuredData>,
    message: Option<bytes>)
  {
    predicate Valid() {
      ValidVersion(version) && (priority.None? || ValidPriority(priority.value))
    }

    function ComputeFromPriority(value: byte): Message {
      this.(priority := Some(value), facility := Some(value / 8), severity := Some(value % 8))
    }
  }

  const EMPTY: Message := Message(None, None, None, 0, None, None, None, None, None, None, None)

  /** The parser's syslogMessage; an unset timestamp is None. */
  datatype Draft = Draft(
    prioritySet: bool, hasElements: bool,
    priority: byte, version: nat,
    timestamp: Option<Timestamp>,
    hostname: bytes, appname: bytes, procID: bytes, msgID: bytes,
    structuredData: StructuredData,
    message: bytes)
  {
    predicate Minimal(priorityOptional: bool) {
      if !ValidVersion(version) then false
      else if prioritySet then ValidPriority(priority)
      else priorityOptional
    }

    /** Nil values, empty strings and an SD part without elements become absent. */
    function Export(): Message {
      var out := if prioritySet then EMPTY.ComputeFromPriority(priority) else EMPTY;
      out.(version := version, timestamp := timestamp,
           hostname := Present(hostname), appname := Present(appname),
           procID := Present(procID), msgID := Present(msgID),
           structuredData := if hasElements then Some(structuredData) else None,
           message := if message == [] then None else Some(message))
    }
  }

  const BLANK: Draft := Draft(false, false, 0, 0, None, [], [], [], [], map[], [])

  function Present(s: bytes): Option<bytes> {
    if s != [DASH] && s != [] then Some(s) else None
  }

  // ------------------------------------------------------------------
  // Fields

  datatype Field = Hostname | Appname | ProcID | MsgID

  function MaxLength(f: Field): (n: nat)
    ensures n >= 32
  {
    match f
    case Hostname => 255
    case Appname => 48
    case ProcID => 128
    case MsgID => 32
  }

  predicate AllGraph(s: bytes) {
    forall i :: 0 <= i < |s| ==> IsGraph(s[i])
  }

  predicate AllNameChars(s: bytes) {
    forall i :: 0 <= i < |s| ==> IsNameChar(s[i])
  }

  /** HOSTNAME, APP-NAME, PROCID, MSGID (section 6 of RFC 5424), the nil value included. */
  predicate IsField(f: Field, s: bytes) {
    1 <= |s| <= MaxLength(f) && AllGraph(s)
  }

  /** SD-NAME: element identifiers and parameter names. */
  predicate IsName(s: bytes) {
    1 <= |s| <= 32 && AllNameChars(s)
  }
}
