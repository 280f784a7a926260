/** The websocket message document (websocket_message.go and websocket/types.go
    declare the same struct) and the fixed commands the client sends. */
module Messages {
  import opened Base
  import opened Strings
  import opened Json
  import Payload

  /** `Message` / `WebsocketMessage`. `messageBytes` is the `json:"-"` field, never decoded. */
  datatype Message = Message(
    stream: string,
    kind: string,              // the `type` field
    message: string,           // the `Message` field
    messageBytes: Option<string>,
    data: Payload.Data,
    console: string)

  /** The zero message `Message{}`. */
  const Empty := Message("", "", "", None, Payload.Zero, "")

  /** A string field of the struct, found by its tag as `FieldValue` finds it: absent or
      `null` leaves it empty, a string sets it, anything else is a type error. */
  function StringField(m: map<string, Json>, tag: string): (r: Option<string>)
    ensures (forall k | k in m :: Fold(k) != Fold(tag)) ==> r == Some("")
    ensures tag in m && m[tag].Str? ==> r == Some(m[tag].s)
    ensures r.Some? && r.value != "" ==> exists k | k in m :: Fold(k) == Fold(tag) && m[k] == Str(r.value)
  {
    match FieldValue(m, tag)
    case None => Some("")
    case Some(Str(s)) => Some(s)
    case Some(Null) => Some("")
    case _ => None
  }

  /** `json.Unmarshal(raw, &msg)` into a fresh message, once the document has been parsed:
      `null` leaves the zero message, an object fills the fields its keys name, exactly or
      under case folding (the `data` field through `Data.UnmarshalJSON`), and any other
      value is an error. */
  function DecodeDocument(v: Json, lib: JsonLib): (r: Option<Message>)
    ensures r.Some? ==> r.value.messageBytes.None?
    ensures r.Some? && v.Object? && "type" in v.members && v.members["type"].Str?
      ==> r.value.kind == v.members["type"].s
  {
    match v
    case Null => Some(Empty)
    case Object(m) =>
      var stream, kind, message, console := StringField(m, "stream"), StringField(m, "type"),
        StringField(m, "Message"), StringField(m, "console");
      var data := DataField(m, lib);
      if stream.Some? && kind.Some? && message.Some? && console.Some? && data.outcome.Pass? then
        Some(Message(stream.value, kind.value, message.value, None, data.data, console.value))
      else None
    case _ => None
  }

  /** The `data` field, decoded by `Data.UnmarshalJSON` when a key names it. */
  function DataField(m: map<string, Json>, lib: JsonLib): (r: Payload.Decoded)
    ensures (forall k | k in m :: Fold(k) != Fold("data")) ==> r == Payload.Decoded(Payload.Zero, Pass)
  {
    match FieldValue(m, "data")
    case Some(d) => Payload.Decode(Some(d), Payload.Zero, lib)
    case None => Payload.Decoded(Payload.Zero, Pass)
  }

  /** A status document whose `message` key is spelled in lower case still fills
      `Message`, as the only key that folds onto that tag. */
  lemma LowerCaseMessageKey(t: string, lib: JsonLib)
    ensures DecodeDocument(Object(map["type" := Str("status"), "message" := Str(t)]), lib)
      == Some(Message("", "status", t, None, Payload.Zero, ""))
  {
    StatusFrameDecodes(map["type" := Str("status"), "message" := Str(t)], t, lib);
  }

  lemma StatusFrameDecodes(m: map<string, Json>, t: string, lib: JsonLib)
    requires m == map["type" := Str("status"), "message" := Str(t)]
    ensures DecodeDocument(Object(m), lib) == Some(Message("", "status", t, None, Payload.Zero, ""))
  {
    MessageKeyFolds(m, t);
    FieldEmpty(m, t, "stream");
    FieldEmpty(m, t, "console");
    DataAbsent(m, t, lib);
    DecodeObject(m, lib, "", "status", t, "");
  }

  lemma DecodeObject(m: map<string, Json>, lib: JsonLib, stream: string, kind: string, message: string, console: string)
    requires StringField(m, "stream") == Some(stream) && StringField(m, "type") == Some(kind)
    requires StringField(m, "Message") == Some(message) && StringField(m, "console") == Some(console)
    requires DataField(m, lib) == Payload.Decoded(Payload.Zero, Pass)
    ensures DecodeDocument(Object(m), lib) == Some(Message(stream, kind, message, None, Payload.Zero, console))
  {
  }

  lemma FieldEmpty(m: map<string, Json>, t: string, tag: string)
    requires m == map["type" := Str("status"), "message" := Str(t)]
    requires tag == "stream" || tag == "console"
    ensures StringField(m, tag) == Some("")
  {
    FieldAbsent(m, t, tag);
  }

  lemma DataAbsent(m: map<string, Json>, t: string, lib: JsonLib)
    requires m == map["type" := Str("status"), "message" := Str(t)]
    ensures DataField(m, lib) == Payload.Decoded(Payload.Zero, Pass)
  {
    FieldAbsent(m, t, "data");
  }

  lemma MessageKeyFolds(m: map<string, Json>, t: string)
    requires m == map["type" := Str("status"), "message" := Str(t)]
    ensures StringField(m, "type") == Some("status")
    ensures StringField(m, "Message") == Some(t)
  {
    assert Fold("message") == Fold("Message");
    FieldValueFolded(m, "Message", "message");
  }

  lemma FieldAbsent(m: map<string, Json>, t: string, tag: string)
    requires m == map["type" := Str("status"), "message" := Str(t)]
    requires tag == "stream" || tag == "console" || tag == "data"
    ensures forall k | k in m :: Fold(k) != Fold(tag)
  {
    forall k | k in m ensures Fold(k) != Fold(tag) {
      if |k| == |tag| {
        assert Fold(k)[0] != Fold(tag)[0];
      }
    }
  }

  /** `json.Unmarshal(raw, &msg)`: `None` when it returns an error. */
  function Unmarshal(raw: string, lib: JsonLib): Option<Message> {
    match lib.parse(raw)
    case None => None
    case Some(v) => DecodeDocument(v, lib)
  }

  /** What both read loops do to a parsed message before delivering it. */
  function WithBytes(m: Message): (r: Message)
    ensures m.messageBytes.None? ==> BytesMirrorMessage(r)
    ensures m.message != "" ==> r.messageBytes == Some(m.message)
    ensures r.(messageBytes := m.messageBytes) == m
  {
    if m.message != "" then m.(messageBytes := Some(m.message)) else m
  }

  /** A delivered message carries `MessageBytes` exactly when `Message` is non-empty. */
  predicate BytesMirrorMessage(m: Message) {
    (m.messageBytes.Some? <==> m.message != "") && (m.messageBytes.Some? ==> m.messageBytes.value == m.message)
  }

  datatype StreamName = Console | Heap | Tick
  datatype Toggle = Start | Stop

  function StreamLabel(s: StreamName): string {
    match s
    case Console => "console"
    case Heap => "heap"
    case Tick => "tick"
  }

  function ToggleLabel(t: Toggle): string {
    match t
    case Start => "start"
    case Stop => "stop"
  }

  /** `Start/StopConsoleLogStream`, `Start/StopHeapInfoStream`, `Start/StopTickStream`:
      a message with only `Stream` and `Type` set. */
  function StreamCommand(s: StreamName, t: Toggle): (m: Message)
    ensures m == Empty.(stream := StreamLabel(s), kind := ToggleLabel(t))
    ensures m.stream != "" && m.kind != ""
  {
    Message(StreamLabel(s), ToggleLabel(t), "", None, Payload.Zero, "")
  }

  /** Reads a stream command back out of a message. */
  function AsCommand(m: Message): Option<(StreamName, Toggle)> {
    if m.message != "" || m.messageBytes.Some? || m.data != Payload.Zero || m.console != "" then None
    else
      var s := if m.stream == "console" then Some(Console)
               else if m.stream == "heap" then Some(Heap)
               else if m.stream == "tick" then Some(Tick)
               else None;
      var t := if m.kind == "start" then Some(Start) else if m.kind == "stop" then Some(Stop) else None;
      match (s, t)
      case (Some(s), Some(t)) => Some((s, t))
      case _ => None
  }

  /** Each of the six commands names its stream and action and nothing else, so all six
      are different messages and each can be read back. */
  lemma CommandRoundTrip(s: StreamName, t: Toggle)
    ensures AsCommand(StreamCommand(s, t)) == Some((s, t))
  {
  }

  lemma CommandsDistinct(s: StreamName, t: Toggle, s': StreamName, t': Toggle)
    ensures StreamCommand(s, t) == StreamCommand(s', t') <==> s == s' && t == t'
  {
    CommandRoundTrip(s, t);
    CommandRoundTrip(s', t');
  }

  /** The `Type` of a heartbeat: the heart emoji, whose UTF-8 bytes are E2 9D A4. */
  const HeartbeatType := "\U{2764}"

  /** `SendHeartBeat`: only `Type` is set. */
  function Heartbeat(): (m: Message)
    ensures m == Empty.(kind := HeartbeatType)
    ensures AsCommand(m).None?
  {
    Message("", HeartbeatType, "", None, Payload.Zero, "")
  }

  lemma HeartbeatBytes()
    ensures Utf8Bytes(Heartbeat().kind) == [0xE2, 0x9D, 0xA4]
  {
    assert Utf8(HeartbeatType[0]) == [0xE2, 0x9D, 0xA4];
  }
}
