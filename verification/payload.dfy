/** The string-or-object payload `Data` (data.go; the websocket package's copy in
    websocket/marshal.go is the same code and is modelled by the same members).

    `Content` holds either a plain string or a serialised JSON object; which of the
    two is decided on the way out by whether `Content` begins with `{`, and on the
    way in by the kind of JSON value found. */
module Payload {
  import opened Base
  import opened Strings
  import opened Json

  /** `Data`; `contentBytes` is `None` for a nil `ContentBytes` slice. */
  datatype Data = Data(content: string, contentBytes: Option<string>)

  /** The zero `Data{}`. */
  const Zero := Data("", None)

  /** The test `MarshalJSON` uses to tell a stored object from a plain string. */
  predicate LooksLikeObject(content: string) {
    HasPrefix(content, "{")
  }

  /** Both fields agree, as after any string or object decode. */
  predicate Consistent(d: Data) {
    d.contentBytes == Some(d.content)
  }

  /** `Data.MarshalJSON`; it cannot fail. */
  function Marshal(d: Data): (r: string)
    ensures LooksLikeObject(d.content) ==> r == (if d.contentBytes.Some? then d.contentBytes.value else d.content)
    ensures !LooksLikeObject(d.content) ==> Unquote(r) == Some(d.content) && r[0] == '"'
  {
    if LooksLikeObject(d.content) then
      match d.contentBytes
      case Some(b) => b
      case None => d.content
    else
      QuoteRoundTrip(d.content);
      Quote(d.content)
  }

  /** The receiver after `UnmarshalJSON` together with the error it returned. */
  datatype Decoded = Decoded(data: Data, outcome: Outcome)

  /** `Data.UnmarshalJSON` once `json.Unmarshal` into `interface{}` has produced `parsed`
      (`None`: a syntax error). */
  function Decode(parsed: Option<Json>, d: Data, lib: JsonLib): (r: Decoded)
    ensures r.outcome.Fail? <==> parsed.None?
    ensures r.outcome.Pass? ==> Consistent(r.data) || r.data == d
    ensures (parsed.None? || !(parsed.value.Str? || parsed.value.Object?)) ==> r.data == d
  {
    match parsed
    case None => Decoded(d, Fail(Parse))
    case Some(Str(s)) => Decoded(Data(s, Some(s)), Pass)
    case Some(Object(m)) =>
      var b := lib.marshal(m);
      Decoded(Data(b, Some(b)), Pass)
    case Some(_) => Decoded(d, Pass)
  }

  /** `Data.UnmarshalJSON(input)` on receiver `d`. */
  function Unmarshal(input: string, d: Data, lib: JsonLib): Decoded {
    Decode(lib.parse(input), d, lib)
  }

  /** Decoding a JSON string stores it in both fields. */
  lemma DecodeString(input: string, d: Data, lib: JsonLib)
    requires WellBehaved(lib) && Unquote(input).Some?
    ensures Unmarshal(input, d, lib) == Decoded(Data(Unquote(input).value, Some(Unquote(input).value)), Pass)
  {
  }

  /** Decoding an object stores its serialisation in both fields; marshalling afterwards
      hands back exactly those bytes, from which the same object decodes again. */
  lemma ObjectRoundTrip(input: string, d: Data, lib: JsonLib, m: map<string, Json>)
    requires WellBehaved(lib) && lib.parse(input) == Some(Object(m))
    ensures var r := Unmarshal(input, d, lib);
      && r.outcome == Pass
      && Consistent(r.data)
      && Marshal(r.data) == r.data.contentBytes.value
      && lib.parse(Marshal(r.data)) == Some(Object(m))
      && Unmarshal(Marshal(r.data), Zero, lib) == r
  {
    assert HasPrefix(lib.marshal(m), "{");
  }

  /** A string payload that does not begin with `{` survives marshal-then-unmarshal. */
  lemma StringRoundTrip(s: string, bytes: Option<string>, d: Data, lib: JsonLib)
    requires WellBehaved(lib) && !LooksLikeObject(s)
    ensures Unmarshal(Marshal(Data(s, bytes)), d, lib) == Decoded(Data(s, Some(s)), Pass)
  {
    assert Unquote(Marshal(Data(s, bytes))) == Some(s);
  }

  /** The `{` test looks at the first character only: a decoded string payload comes back
      out as a JSON string exactly when it does not begin with `{`; otherwise it is
      re-emitted unquoted and never decodes to that string again. */
  lemma StringPayloadRoundTripIff(s: string, lib: JsonLib)
    requires WellBehaved(lib)
    ensures lib.parse(Marshal(Data(s, Some(s)))) == Some(Str(s)) <==> !LooksLikeObject(s)
  {
    if LooksLikeObject(s) {
      assert Marshal(Data(s, Some(s))) == s;
      assert HasPrefix(s, "{");
    } else {
      StringRoundTrip(s, Some(s), Zero, lib);
    }
  }

  /** A plain string that does not begin with `{` is written between quotation marks as is. */
  lemma MarshalPlain(s: string, bytes: Option<string>)
    requires !LooksLikeObject(s)
    requires forall i | 0 <= i < |s| :: Plain(s[i])
    ensures Marshal(Data(s, bytes)) == "\"" + s + "\""
  {
    EscapePlain(s);
  }

  /** `TestData_MarshalJSON`, first half: a plain string is written as a JSON string. */
  lemma MarshalHelloWorld(s: string)
    requires s == "hello world!"
    ensures Marshal(Data(s, None)) == "\"hello world!\""
  {
    assert s[0] == 'h';
    forall i | 0 <= i < |s|
      ensures Plain(s[i])
    {
      assert 'a' <= s[i] <= 'z' || s[i] == ' ' || s[i] == '!';
    }
    MarshalPlain(s, None);
  }

  /** `TestData_MarshalJSON`, second half: a stored object is written verbatim (the
      whitespace removal the test then observes is done by `json.Marshal` around it). */
  lemma MarshalStoredObject()
    ensures Marshal(Data("{\"foo\": \"bar\"}", None)) == "{\"foo\": \"bar\"}"
  {
  }
}
