/** The root package's `Websocket` (websocket.go): writes go straight to the connection,
    and the handle keeps the `isConnected` flag that the receiver loop and `Close` update. */
module Socket {
  import opened Base
  import opened Messages
  import opened Wire

  /** A frame written to the connection. */
  datatype Frame = JsonFrame(msg: Message) | ControlFrame(payload: seq<int>)

  datatype Socket = Socket(conn: ConnId, connected: bool, written: seq<Frame>)

  /** The tail of `ConnectWebSocket`: a failed dial is returned as is, a successful one
      yields a handle that counts as connected and has written nothing. */
  function Connect(dial: Result<ConnId>): (r: Result<Socket>)
    ensures r.Ok? <==> dial.Ok?
    ensures r.Ok? ==> r.value.connected && r.value.conn == dial.value && r.value.written == []
    ensures r.Err? ==> r.error == dial.error
  {
    match dial
    case Ok(c) => Ok(Socket(c, true, []))
    case Err(e) => Err(e)
  }

  /** `Send`: `WriteJSON`, whose error (`writeErr`) is returned unchanged. */
  function Send(s: Socket, m: Message, writeErr: Option<string>): (r: (Socket, Outcome))
    ensures r.1.Pass? <==> writeErr.None?
    ensures r.1.Fail? ==> r.1.error == Transport(writeErr.value) && r.0 == s
    ensures r.1.Pass? ==> r.0.written == s.written + [JsonFrame(m)]
    ensures r.0.connected == s.connected
  {
    match writeErr
    case Some(e) => (s, Fail(Transport(e)))
    case None => (s.(written := s.written + [JsonFrame(m)]), Pass)
  }

  /** `Close`: when the close frame cannot be written (`writeErr`) the handle is left as it
      was, `isConnected` included, and an error is returned; otherwise `isConnected` is
      cleared and the result is `nil` if the receiver finishes within the timeout, or the
      error of force-closing the connection (`forceCloseErr`) if it does not. */
  function Close(s: Socket, writeErr: Option<string>, receiverFinished: bool, forceCloseErr: Option<string>)
    : (r: (Socket, Outcome))
    ensures r.1 == Fail(CloseNotSent) <==> writeErr.Some?
    ensures r.0.connected == (s.connected && writeErr.Some?)
    ensures writeErr.Some? ==> r.0 == s
    ensures writeErr.None? ==> r.0.written == s.written + [ControlFrame(FormatCloseMessage(NormalClosure, ""))]
    ensures writeErr.None? ==> (r.1.Pass? <==> receiverFinished || forceCloseErr.None?)
  {
    if writeErr.Some? then (s, Fail(CloseNotSent))
    else
      var s' := s.(connected := false, written := s.written + [ControlFrame(NormalClose())]);
      if receiverFinished then (s', Pass)
      else match forceCloseErr
        case None => (s', Pass)
        case Some(e) => (s', Fail(Transport(e)))
  }

  /** The close frame carries status 1000 and no reason. */
  lemma CloseFramePayload(s: Socket, receiverFinished: bool, forceCloseErr: Option<string>)
    ensures var r := Close(s, None, receiverFinished, forceCloseErr);
      r.0.written[|r.0.written| - 1] == ControlFrame([0x03, 0xE8])
      && CloseCode(r.0.written[|r.0.written| - 1].payload) == Some(NormalClosure)
  {
  }

  /** A handle fresh from `Connect` reports itself disconnected after `Close` exactly when the
      close frame was written. */
  lemma ConnectThenClose(c: ConnId, writeErr: Option<string>, receiverFinished: bool, forceCloseErr: Option<string>)
    ensures Close(Connect(Ok(c)).value, writeErr, receiverFinished, forceCloseErr).0.connected <==> writeErr.Some?
  {
  }
}
