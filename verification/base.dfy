/** Failure-carrying datatypes shared by every module of the model.

    A Go `error` is either `nil` (`Pass`) or one of the `Error` values below;
    errors produced by libraries the model does not look inside (the network,
    `encoding/json`, `goquery`, ...) are `Transport` and carry their text
    unchanged so that "the error is returned as is" can be stated. */
module Base {

  datatype Option<+T> = None | Some(value: T)

  datatype Error =
    | Transport(detail: string)     // an error handed back by a library call, passed through
    | Parse                         // encoding/json refused its input
    | ServerAlreadyStarted          // errors.go: "server already started"
    | ServerAlreadyStopped          // errors.go: "server already stopped"
    | TokenNotFound                 // "failed to find token"
    | ServerInfoNotFound            // "failed to find server info"
    | StartRefused                  // "Aternos failed to start the server."
    | ScriptThrew                   // the JavaScript interpreter raised an exception
    | ProxyStatus(status: string)   // a CONNECT answered with something other than 200
    | InvalidSessions               // "invalid sessions.txt"
    | NotBase64                     // base64 decoding failed
    | CloseNotSent                  // "failed send close message"

  datatype Result<+T> = Ok(value: T) | Err(error: Error)

  /** A Go `error` result: `Pass` is `nil`. */
  datatype Outcome = Pass | Fail(error: Error)

  /** A connection handle of the transport library (a `*websocket.Conn` or `net.Conn`). */
  type ConnId = nat

  /** `time.Duration`: a count of nanoseconds. */
  type Duration = int

  const Millisecond: Duration := 1000000
  const Second: Duration := 1000 * Millisecond
}
