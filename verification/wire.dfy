/** The payload of a websocket close frame as gorilla's `FormatCloseMessage` builds it
    (section 5.5.1 of RFC 6455): a two-byte big-endian status code followed by the
    UTF-8 reason. */
module Wire {
  import opened Base
  import opened Strings

  /** Status code 1000, "normal closure" (section 7.4.1 of RFC 6455). */
  const NormalClosure := 1000

  /** Status code 1005, which must never be sent and yields an empty payload. */
  const NoStatusReceived := 1005

  /** `websocket.FormatCloseMessage(code, text)`; the code is written as a `uint16`, so
      only its low 16 bits survive. */
  function FormatCloseMessage(code: nat, text: string): (payload: seq<int>)
    ensures code == NoStatusReceived <==> payload == []
    ensures payload != [] ==> |payload| == 2 + |Utf8Bytes(text)| && payload[2..] == Utf8Bytes(text)
    ensures forall i | 0 <= i < |payload| :: 0 <= payload[i] < 256
  {
    if code == NoStatusReceived then []
    else
      var low := code % 0x10000;
      [low / 256, low % 256] + Utf8Bytes(text)
  }

  /** The status code a close payload carries, as a receiver reads it back. */
  function CloseCode(payload: seq<int>): Option<nat> {
    if |payload| < 2 || !(0 <= payload[0] < 256 && 0 <= payload[1] < 256) then None
    else Some(payload[0] * 256 + payload[1])
  }

  /** Any code other than 1005 is read back from the payload unchanged. */
  lemma CloseCodeRoundTrip(code: nat, text: string)
    requires code < 0x10000 && code != NoStatusReceived
    ensures CloseCode(FormatCloseMessage(code, text)) == Some(code)
  {
    assert code % 0x10000 == code;
    assert code == (code / 256) * 256 + code % 256;
  }

  /** The payload both close paths send: normal closure with an empty reason, bytes 03 E8. */
  function NormalClose(): (payload: seq<int>)
    ensures payload == [0x03, 0xE8]
    ensures CloseCode(payload) == Some(NormalClosure)
  {
    FormatCloseMessage(NormalClosure, "")
  }
}
