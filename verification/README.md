# aternos-api, modelled in Dafny

A model of the Go client library for Aternos, the free Minecraft server host. The client:

- drives a server over HTTP: it reads the status page, mints the AJAX security token SEC, extracts the AJAX token with a JavaScript interpreter, and starts, confirms and stops the server;
- talks to the Aternos websocket: it decodes the messages the server pushes, sends stream commands and heartbeats, and closes the connection;
- tunnels through an HTTP proxy with `CONNECT`.

The model also covers the two programs built on the library: the command-line client and the multi-server example.

The network, goroutines and the third-party libraries (gorilla/websocket, goquery, goja, `encoding/json` parsing, `math/rand`) are not modelled as code. Each one becomes an oracle: a function-typed field of an environment datatype. Each loop that reads from a channel becomes a fold over the sequence of events its `select` takes.

| file | module | models |
|---|---|---|
| base.dfy | `Base` | `Option`, `Result`, Go `error` as `Outcome`, the library's errors, `Duration` |
| strings.dfy | `Strings` | the `strings` functions the code calls (`ReplaceAll`, `TrimSuffix`, `TrimSpace`, `Split`) and UTF-8 |
| json.dfy | `Json` | JSON values (RFC 8259) and `encoding/json`'s string quoting, with its inverse |
| base64.dfy | `Base64` | standard base64 (section 4 of RFC 4648): encoding, and decoding that skips line breaks as Go's decoder does |
| payload.dfy | `Payload` | the string-or-object `Data` codec (data.go and its copy websocket/marshal.go) |
| messages.dfy | `Messages` | the websocket message document, the stream commands and the heartbeat |
| inbound.dfy | `Inbound` | the read loops: `startReceiver` (websocket.go) and `startReader` (websocket/reader.go) |
| wire.dfy | `Wire` | the close-frame payload (section 5.5.1 of RFC 6455) |
| writer.dfy | `Writer` | `startWriter` (websocket/writer.go) as a state machine over its events |
| session.dfy | `Session` | the websocket package's handle: `New`, `Send`, `Close` |
| socket.dfy | `Socket` | the root package's handle: `ConnectWebSocket`'s result, `Send`, `Close`, `isConnected` |
| heartbeat.dfy | `Heartbeat` | `StartHearthBeat` and `SendHearthBeats` |
| credentials.dfy | `Credentials` | `randomString`, `genSec` and `atob` |
| control.dfy | `Control` | http.go: status page, token, start, confirm, stop |
| legacy.dfy | `Legacy` | the older `ConfirmServer` of aternos_api.go |
| proxy.dfy | `Proxy` | `httpProxyDialer.Dial` |
| cli.dfy | `Cli` | cmd/main.go |
| parallel.dfy | `Parallel` | examples/parallel-websocket/main.go |

Several pieces of the source are the same code in two places, and each is modelled once:

- data.go and websocket/marshal.go hold the same codec.
- websocket.go and the websocket package hold the same stream helpers and the same heartbeat loop.
- aternos_api.go holds an older revision of http.go. Its `genSec`, `extractToken`, `GetServerInfo`, `StartServer` and `StopServer` are line for line those of http.go, so each `Control` row below names the matching lines of both files.
- Only the older `ConfirmServer` differs, and it has its own module, `Legacy`.

Some types model Go concepts as follows:

- Strings are sequences of Unicode scalar values, that is, valid UTF-8.
- A Go byte slice `[]byte(s)` is `Some(s)` and a nil slice is `None`.
- Close-frame and base64 bytes are integers in `[0, 256)`.

## Model

| member | source | states |
|---|---|---|
| Payload.Marshal | data.go:15-26 | content beginning with `{` is emitted verbatim: the stored bytes when there are any, else the content itself. Any other content becomes a JSON string literal that unquotes back to the content; websocket/marshal.go:8-19 is the same code |
| Payload.Decode | data.go:28-54 | fails exactly when the input is not JSON. A string or an object sets both fields to the same text. Any other kind of value, and a failure, leave the receiver unchanged; websocket/marshal.go:21-47 is the same code |
| Payload.DecodeString | data.go:36-41 | decoding a JSON string stores its text in `Content` and `ContentBytes` and returns nil; websocket/marshal.go:29-34 is the same code |
| Payload.ObjectRoundTrip | data.go:42-50 | decoding an object stores one serialisation in both fields. Marshalling then hands back exactly those bytes, which decode to the same object and the same `Data`; websocket/marshal.go:35-43 is the same code |
| Payload.StringRoundTrip | data.go:25 | a string payload that does not begin with `{` survives marshal then unmarshal |
| Payload.StringPayloadRoundTripIff | data.go:17 | a decoded string payload marshals back to the same JSON string if and only if it does not begin with `{` |
| Payload.MarshalPlain | data.go:25 | a string without characters that need escaping is written between quotation marks unchanged |
| Payload.MarshalHelloWorld | data_test.go:40-54 | "hello world!" marshals to `"hello world!"` |
| Payload.MarshalStoredObject | data_test.go:56-67 | content beginning with `{` is handed on without quoting |
| Json.QuoteRoundTrip | data.go:25 | the JSON string that `json.Marshal` writes for a Go string decodes back to that string |
| Json.EscapeChar | data.go:25 | a character is written as itself exactly when it needs no escape. Otherwise its escape begins with a backslash |
| Json.EscapePlain | data.go:25 | text with nothing to escape is not changed by escaping |
| Json.Hex4RoundTrip | data.go:25 | the four hex digits of a `\u` escape read back as the code unit written |
| Messages.DecodeDocument | websocket_message.go:3-10 | a decoded message never carries `MessageBytes`, and its `type` field is the document's `type` string |
| Messages.StringField | websocket/types.go:35-40 | a field with no key that folds onto its tag stays empty, and a string under the exact tag is taken as is. A non-empty value is the string of a key that folds onto the tag |
| Json.FieldValue | websocket/types.go:35-40 | the key equal to the tag wins when present. There is no value exactly when no key equals the tag under case folding, and a value found is that of such a key |
| Json.FieldValueFolded | websocket/types.go:37 | when exactly one key folds onto the tag, the field takes that key's value whatever its case |
| Messages.LowerCaseMessageKey | websocket_message.go:6 | a status document whose `message` key is in lower case decodes with `Message` set to its text |
| Messages.WithBytes | websocket/reader.go:42-44 | `MessageBytes` is set to the bytes of `Message` when that is not empty. Nothing else changes |
| Messages.StreamCommand | websocket/websocket.go:47-99 | each helper sends a message with only `Stream` (console, heap or tick) and `Type` (start or stop) set |
| Messages.CommandRoundTrip | websocket.go:70-122 | the stream and the action can be read back from each command message |
| Messages.CommandsDistinct | websocket/websocket.go:49-99 | the six commands are six different messages |
| Messages.Heartbeat | websocket/websocket.go:103-107 | the heartbeat sets only `Type`, and it is not a stream command |
| Messages.HeartbeatBytes | websocket.go:126-130 | the heartbeat's `Type` is the bytes E2 9D A4 |
| Inbound.Parsed | websocket/reader.go:34-46 | a text frame is delivered exactly when it decodes. What is delivered is the decoded message, with `MessageBytes` mirroring `Message` |
| Inbound.Step | websocket/reader.go:33-49 | a non-stopping read delivers at most one message, and exactly one for a text frame that decodes |
| Inbound.StepDeliversDecoded | websocket/reader.go:35-46 | the message a decodable text frame sends is the decoded message, with `MessageBytes` set from `Message` |
| Inbound.FirstStop | websocket/reader.go:18-31 | the loop returns at the first read error (the receiver also returns at the first close frame), and on no earlier read |
| Inbound.Delivered | websocket/reader.go:18-46 | every message sent carries `MessageBytes` exactly when `Message` is not empty. Which frames are delivered is stated by `Inbound.DeliveredExactly` and `Inbound.NothingAfterStop` |
| Inbound.FinalConnected | websocket.go:161-191 | the reader keeps no flag, and frames with no read error and no close frame leave `isConnected` as it was. The value after a stop is stated by `Inbound.ConnectedAfterError` and `Inbound.CloseFrameRevisions` |
| Inbound.ReadLoop | websocket/reader.go:12-51 | the messages sent are those of the text frames before the stopping read. Both channels are closed exactly when the loop returned. The same holds for `startReceiver` at websocket.go:157-196, which also returns on a close frame and leaves `isConnected` as `FinalConnected` says |
| Inbound.CloseOrder | websocket/reader.go:13-16 | on return the two channels are each closed once, as are `startReceiver`'s two deferred closes at websocket.go:158-159, which run in reverse order |
| Inbound.DeliveredMirror | websocket.go:184-186 | every delivered message carries `MessageBytes` exactly when its `Message` is not empty |
| Inbound.DeliveredExactly | websocket/reader.go:34-46 | every delivered message decodes from a text frame that was read, and every text frame that decodes is delivered |
| Inbound.NothingAfterStop | websocket/reader.go:13-31 | nothing read after the stopping read is delivered |
| Inbound.MalformedDropped | websocket/reader.go:37-40 | a text frame that fails to decode is dropped, and reading continues |
| Inbound.NonTextIgnored | websocket/reader.go:47-48 | frames of other types are ignored. The reader also ignores close frames |
| Inbound.CloseFrameRevisions | websocket.go:189-191 | a close frame ends the receiver, with nothing more delivered and `isConnected` false |
| Inbound.ConnectedAfterError | websocket.go:164-173 | after a read error, `isConnected` is false for a close error of any code and true for any other error |
| Wire.FormatCloseMessage | websocket.go:49 | the close payload is empty only for code 1005. Otherwise it is two bytes of code followed by the UTF-8 reason |
| Wire.CloseCodeRoundTrip | websocket.go:49 | any 16-bit code other than 1005 is read back from the payload |
| Wire.NormalClose | websocket/writer.go:21 | the normal-closure payload is 03 E8, which carries code 1000 |
| Writer.Step | websocket/writer.go:13-37 | one pass only appends to the trace. It stops the loop exactly on `writerDone` or a failed reconnect. A reconnect first closes the old connection and then installs the new one |
| Writer.Run | websocket/writer.go:13-38 | the loop only appends to the trace. What it writes and when it stops are stated by `Writer.RunWrites`, `Writer.RunningIff` and `Writer.StoppedStays` |
| Writer.StepWrites | websocket/writer.go:15-18 | a pass writes the message it takes, and nothing else |
| Writer.RunWrites | websocket/writer.go:13-18 | the messages written are those taken before the loop returns, in the order taken. A failed write neither stops nor reorders the loop |
| Writer.StoppedStays | websocket/writer.go:19-25 | once the loop has returned, nothing further happens |
| Writer.RunningIff | websocket/writer.go:19-34 | the loop is still running exactly when no event so far was `writerDone` or a failed reconnect |
| Writer.StepWellOrdered | websocket/writer.go:26-36 | each pass keeps the trace ordering: the reader is signalled only after `OnReconnect`, which comes after the old connection was closed, and channels are closed only on exit |
| Writer.RunWellOrdered | websocket/writer.go:10-11 | on exit, `writerReconnect` and then `messageOut` are closed, as the last two actions |
| Writer.ReconnectOutcome | websocket/writer.go:31-36 | a failed reconnect ends the loop without signalling the reader. After a successful one, the next write uses the new connection |
| Writer.StartWriter | websocket/writer.go:9-39 | the writer's result writes exactly the messages taken, is well ordered, and is running exactly when no event has ended it |
| Session.New | websocket/websocket.go:10-20 | stores the connection and the reconnect function, and creates six distinct fresh unbuffered open channels |
| Session.Send | websocket/websocket.go:43-45 | the message is queued for the writer unchanged, after everything sent before it. Nothing else changes |
| Session.Close | websocket/websocket.go:29-40 | panics exactly when `writerDone` is already closed. Otherwise it closes it, tells the writer to finish, and returns nil if the reader finished and the force-close error if not |
| Session.CloseTwicePanics | websocket/websocket.go:30 | a second `Close` panics |
| Session.SendsThenClose | websocket/websocket.go:28-45 | after `New`, some sends and `Close`, the writer writes exactly the sent messages in order. It then writes the normal-closure frame and returns, closing both its channels |
| Session.SendAllOutbox | websocket/websocket.go:43-45 | a series of sends queues the messages in order |
| Socket.Connect | websocket.go:218-226 | a failed dial is returned unchanged. A successful dial yields a connected handle on that connection that has written nothing |
| Socket.Send | websocket.go:66-68 | the message is written as one JSON frame, or the write error is returned and nothing changes |
| Socket.Close | websocket.go:47-63 | when the close frame cannot be written, the error is returned and the handle is unchanged, `isConnected` included. Otherwise the frame is written and `isConnected` cleared, and the result is nil when the receiver finished or the force-close succeeded |
| Socket.CloseFramePayload | websocket.go:49 | the close frame carries code 1000 and no reason |
| Socket.ConnectThenClose | websocket.go:53 | a fresh connection reports itself connected after `Close` exactly when the close frame could not be written |
| Heartbeat.Interval | websocket/hearthbeat.go:14-17 | the interval is 49000 ms when no duration is passed, and otherwise the first duration passed; websocket.go:138-141 is the same code |
| Heartbeat.IntervalIgnoresRest | websocket/hearthbeat.go:15-17 | durations after the first are ignored |
| Heartbeat.CancelIsFinal | websocket/hearthbeat.go:23-25 | nothing after the cancellation counts: one heartbeat per tick before it |
| Heartbeat.StartHearthBeat | websocket/hearthbeat.go:13-30 | panics exactly for a non-positive interval. Otherwise it sends one heartbeat per tick before the first cancellation, and has returned exactly when a cancellation came; websocket.go:137-154 is the same code |
| Base64.Encode | internal/tlsadapter/proxy.go:28 | the encoding's length is a multiple of four, and it is empty only for no bytes |
| Base64.Decode | utils.go:23 | what decodes is a sequence of bytes |
| Base64.DecodeEncode | utils.go:23 | decoding an encoding gives the original bytes |
| Base64.NewlinesIgnored | utils.go:23 | line breaks in the input do not change what it decodes to |
| Credentials.CharsetIndexOf | utils.go:11 | the charset holds 36 distinct symbols, a to z and 0 to 9 |
| Credentials.RandomString | utils.go:10-20 | the result has exactly `n` characters, and character `i` is the charset symbol at the `i`-th random index |
| Credentials.RandomStringInjective | utils.go:15-17 | two random strings are equal exactly when the indices drawn are equal |
| Credentials.GenSec | http.go:35-46 | SEC is 33 characters: a random 11-character key and `00000`, a colon, and a random 11-character value and `00000`. The cookie `ATERNOS_SEC_` followed by the key carries the value; aternos_api.go:84-95 is the same code |
| Credentials.GenSecSplit | http.go:39-45 | splitting SEC at its colon gives back the cookie's name suffix and value |
| Credentials.Atob | utils.go:22-28 | a decoding failure is an error, and a success is a sequence of bytes |
| Credentials.AtobEncode | utils.go:22-28 | `atob` of a base64 encoding gives the bytes encoded |
| Control.GetDocument | http.go:17-32 | exactly one GET of the URL. A transport error is returned as is |
| Control.SelectFirstMatch | http.go:52-55 | the selected script is the first trimmed text that matches |
| Control.SelectLastOtherwise | http.go:52-55 | when no text matches, the selected script is the last trimmed text |
| Control.EachWithBreak | http.go:91-94 | the loop leaves the first match, or else the last text, or else ""; aternos_api.go:140-143 is the same code |
| Control.TokenProgram | http.go:67 | the program is `window = {}; `, then the script, then ` window['AJAX_TOKEN'];` |
| Control.ExtractToken | http.go:49-77 | fails with "failed to find token" exactly when the selected script is empty. The token is the interpreter's value for the wrapped script, and any other failure is the interpreter's; aternos_api.go:98-126 is the same code |
| Control.StatusPayload | http.go:100 | the payload is the script with every occurrence of the assignment removed, less at most one trailing `;`. A script with neither comes back unchanged; aternos_api.go:149 is the same code |
| Control.StatusPayloadStrips | http.go:88-100 | for the prefix, a payload free of the prefix, and a `;`, the payload comes back; aternos_api.go:149 is the same code |
| Control.StatusPayloadOneSemicolon | http.go:100 | only one trailing `;` is removed |
| Control.Regenerate | http.go:105 | SEC is replaced by a fresh `genSec` and its cookie added. Nothing else changes |
| Control.GetServerInfo | http.go:80-109 | exactly one request, for the status page. SEC and the token change only after the status decodes, with `genSec` first. A failed token extraction keeps the old token. A transport error returns `ServerInfo{}`; aternos_api.go:129-158 is the same code |
| Control.InfoSurvivesTokenFailure | http.go:105-108 | when the status decodes, it is returned even if the token extraction fails, and the call succeeds exactly when the extraction does |
| Control.ActionUrl | http.go:122 | the URL is the action's base, SEC, `&TOKEN=` and the token, verbatim |
| Control.ActionUrlInjective | http.go:206 | for SECs of one length, two action URLs are equal exactly when SEC and token are |
| Control.StartServer | http.go:112-138 | a failed status fetch is returned. An online server gives `ServerAlreadyStartedError` with no start request. Otherwise exactly one start request is sent, carrying SEC and token; aternos_api.go:163-189 is the same code |
| Control.StartOutcome | http.go:129-135 | a start request fails exactly when the response's `success` is literally `false`; aternos_api.go:180-186 is the same code |
| Control.StartSuccessMissing | http.go:133 | a missing or non-`false` `success`, and a `null` body, count as success |
| Control.StopServer | http.go:196-209 | an offline server gives `ServerAlreadyStoppedError` with no stop request. Otherwise exactly one stop request is sent, carrying SEC and token, and only its transport error is returned; aternos_api.go:223-236 is the same code |
| Control.GuardsSendNothing | http.go:118-204 | the Online guard of `StartServer` (lines 118-120) and the Offline guard of `StopServer` (lines 202-204) send no request beyond the status fetch |
| Control.PollReaction | http.go:175-189 | the newer loop confirms exactly on a preparing status, and otherwise sleeps and polls again |
| Control.Confirm | http.go:180-189 | one confirm request carrying SEC and token. The call succeeds exactly when there is no transport error |
| Control.ConfirmServer | http.go:147-192 | a cancelled context returns nil with no request. A live context skips the status fetch and sends exactly one confirm. Without a context, a run that returns nil is status polls and sleeps ending in exactly one confirm |
| Control.PollUntilPreparing | http.go:154-191 | no contract of its own: its runs are described by `Control.PollShape`, `Control.SyncPassEndsInConfirm` and `Control.PollConfirmsOnce` |
| Control.PollShape | http.go:154-178 | a synchronous run is status polls, each non-preparing one followed by a sleep of `delay`, and at most one confirm |
| Control.SyncPassEndsInConfirm | http.go:175-189 | a synchronous run that returns nil ends with the confirm request |
| Control.PollConfirmsOnce | http.go:164-189 | a synchronous run that returns nil has polled until preparing and sent exactly one confirm, as its last request |
| Legacy.LegacyReaction | aternos_api.go:207-215 | the older loop confirms exactly when the status is neither preparing nor online |
| Legacy.OppositePolicies | aternos_api.go:205-215 | the two revisions disagree on every status but online: the newer one confirms only when preparing, and the older one then stops |
| Legacy.LegacyPoll | aternos_api.go:196-219 | no contract of its own: its runs are described by `Legacy.LegacyPollShape`, `Legacy.LegacyPollSleepsFirst`, `Legacy.LegacyPassEndsOnPoll` and `Legacy.LegacyErrorsReturn` |
| Legacy.LegacyPollShape | aternos_api.go:196-219 | an older run is sleep, poll and confirm, repeated. It ends after a poll or a failed confirm |
| Legacy.LegacyPollSleepsFirst | aternos_api.go:198 | every status poll comes right after a sleep of `delay` |
| Legacy.LegacyConfirmServer | aternos_api.go:196-200 | the older `ConfirmServer` sleeps `delay` right before every status poll |
| Legacy.LegacyPassEndsOnPoll | aternos_api.go:213-218 | an older run that returns nil ends on a status poll |
| Legacy.LegacyErrorsReturn | aternos_api.go:200-211 | a failed status fetch or a failed confirm is returned at once |
| Proxy.BasicCredentials | internal/tlsadapter/proxy.go:28-29 | the value is `Basic ` and then a base64 text that decodes to user, colon and password |
| Proxy.BasicCredentialsSplit | internal/tlsadapter/proxy.go:28 | for a user without a colon, the decoded credentials split back into user and password |
| Proxy.ConnectRequestFor | internal/tlsadapter/proxy.go:24-38 | a `CONNECT` request whose target and `Host` are the destination. `Proxy-Authorization` is its only possible header, present exactly when a user and a password are set |
| Proxy.Dial | internal/tlsadapter/proxy.go:18-57 | the dial targets the proxy's host, and its failure is returned with nothing to close. The tunnel comes up exactly when the write, the read and status 200 all succeed, on the dialled connection, still open. Every failure after the dial closes it |
| Proxy.RefusedStatus | internal/tlsadapter/proxy.go:51-54 | a status other than 200 closes the connection and returns the status text |
| Proxy.NoLeak | internal/tlsadapter/proxy.go:40-56 | a dialled connection is either the open tunnel or closed |
| Cli.ThisOrThat | cmd/main.go:169-174 | the left string when it is not empty, else the right one, so it is empty only when both are |
| Cli.ThisOrThatMonoid | cmd/main.go:169-174 | `thisOrThat` is associative with "" as its neutral element |
| Cli.StatusReaction | cmd/main.go:98-115 | statuses other than starting, online and stopping switch no stream, and no status switches a stream twice |
| Cli.StreamLifecycle | cmd/main.go:99-111 | through starting, online and stopping, each stream is switched on once and later off once |
| Cli.StatusOf | cmd/main.go:93-94 | a nil or undecodable `MessageBytes` leaves `ServerInfo{}`, and otherwise the decoded info is used |
| Cli.Step | cmd/main.go:78-165 | a loop that has returned stays as it is. A turn only appends effects, and a turn that returns ends with the deferred close of line 70. What each event does is stated by `Cli.StatusDispatch`, `Cli.ReadyStartsHeartbeats`, `Cli.LinePrinted` and `Cli.InterruptExitsOnFailure` |
| Cli.Run | cmd/main.go:78-165 | the loop only appends effects. That a returned loop stays as it is is stated by `Cli.ExitIsFinal` |
| Cli.Main | cmd/main.go:27-68 | usage exactly when the session or server flag is missing, before any connection. A connection failure follows only from a failed dial. The loop's client carries the three launch cookies |
| Cli.UsageBeforeConnecting | cmd/main.go:27-36 | a missing flag gives usage whatever the dial and the events |
| Cli.ExitIsFinal | cmd/main.go:78-165 | once the loop has returned, no event changes anything |
| Cli.StatusDispatch | cmd/main.go:98-115 | offline cancels the heartbeats and leaves. Any other status sends its stream commands in order, and nothing else |
| Cli.LowerCaseStatusFrame | cmd/main.go:91-115 | a status frame whose `message` key is in lower case reaches the loop with `MessageBytes` set, and a decodable status other than offline keeps the loop running |
| Cli.UndecodableStatusStops | cmd/main.go:93-114 | a status message whose info cannot be decoded reads as offline and ends the loop |
| Cli.ClosedChannelSpins | cmd/main.go:80-81 | the zero message that a closed channel yields changes nothing, so the loop never ends on it |
| Cli.InterruptExitsOnFailure | cmd/main.go:160-163 | an interrupt requests a stop, and the loop ends exactly when the stop fails |
| Cli.ReadyStartsHeartbeats | cmd/main.go:82-90 | "ready" starts the server, then starts the heartbeats, or leaves with the error |
| Cli.LinePrinted | cmd/main.go:122-125 | a console line prints its content, or "line" when the content is empty |
| Cli.RunKeepsCookies | cmd/main.go:45-62 | the launch cookies stay at the head of the jar whatever the loop does |
| Parallel.ReadFile | examples/parallel-websocket/main.go:38-87 | reads the lines the Scanner yields, which stop before the first line too long for its buffer with the scan error ignored, so later lines are dropped without an error. It succeeds exactly when every scanned line has at least two fields, and otherwise returns "invalid sessions.txt" and no list. On success there is one entry per scanned line, in file order, built from the line less a trailing carriage return |
| Parallel.Scanned | examples/parallel-websocket/main.go:48-50 | the lines scanned are those before the first line of 64 KiB or more |
| Parallel.ScannedPrefix | examples/parallel-websocket/main.go:50 | given shorter lines before it, the scan ends at line k exactly when that is the end of the file or a line too long to buffer |
| Parallel.Token | examples/parallel-websocket/main.go:51 | `scanner.Text()` is the line, less at most one trailing carriage return |
| Parallel.LineOptions | examples/parallel-websocket/main.go:76-79 | a proxy is set exactly when the line has a third field that `url.Parse` accepts, and it is the parsed URL. A failed parse leaves a nil URL and so no proxy, as aternos_api.go:33-39 reads it |
| Parallel.LineFields | examples/parallel-websocket/main.go:53-79 | the first two fields are the session and server cookies after language `en`. The third field, if any, is parsed as the proxy URL, and further fields are ignored |
| Parallel.LineWithoutComma | examples/parallel-websocket/main.go:53-56 | a line has fewer than two fields exactly when it has no comma, as an empty line does |
| Parallel.Start | examples/parallel-websocket/main.go:89-111 | every path that returns calls `wg.Done` exactly once, as its last action, and a worker still running has not called it. A failed connection does nothing else |
| Parallel.RunReleased | examples/parallel-websocket/main.go:105-111 | the loop keeps the wait-group discipline |
| Parallel.CleanupOrder | examples/parallel-websocket/main.go:105-111 | the cleanup cancels, then closes the socket, then releases the wait group |
| Parallel.Step | examples/parallel-websocket/main.go:113-153 | a worker that has returned or is blocked stays as it is. A turn only appends effects, and a turn that returns ends with the deferred cleanup of lines 105-111: cancel, close, `wg.Done`. What each event does is stated by `Parallel.StopConditions` and `Parallel.WaitingConfirms` |
| Parallel.Run | examples/parallel-websocket/main.go:113-153 | the loop only appends effects. That a stopped worker stays is stated by `Parallel.StoppedStays`, and the wait-group discipline by `Parallel.RunReleased` |
| Parallel.StoppedStays | examples/parallel-websocket/main.go:113-153 | once returned or blocked, the worker does nothing more |
| Parallel.StopConditions | examples/parallel-websocket/main.go:115-144 | a closed channel ends the loop (lines 115-119), and so does an offline status whose label is not "waiting" (lines 142-144) |
| Parallel.WaitingConfirms | examples/parallel-websocket/main.go:138-144 | "waiting" runs the synchronous `ConfirmServer` with a 10-second delay, and its error is ignored. Only an offline status then ends the loop |

## Left out

- Goroutines, channel blocking, `time.Sleep`, tickers, and the 3-second (websocket.go) and 5-second (websocket/websocket.go) close timeouts. Each loop is a fold over the events it takes. A timeout is a boolean saying whether the other side finished in time. Sleeps are recorded in a trace, not waited.
- The network, gorilla/websocket, the HTTP client, goquery, goja and `url.Parse`. These are oracles in `Control.Env`, `Proxy.Net` and the events of each loop, which the model reads but does not define. So are `encoding/json`'s document parsing and object serialisation (`Json.JsonLib`, constrained by `Json.WellBehaved`), and `math/rand` (`Credentials.Rng`).
- `WriteJSON`'s encoding of outgoing messages: a write records the message itself.
- Messages.StringField: when several keys of one object fold onto the same tag, `encoding/json` keeps the last one in document order. An object is a map here, with no order, so the model takes the key equal to the tag if present, and otherwise the first match in a fixed order of case variants. Folding covers the characters that fold onto ASCII letters, including the long s and the Kelvin sign, which are all that can match the ASCII tags.
- `encoding/json` decodes every number to a `float64`. A `Json.Number` holds the text that float is written back as, so the precision lost in decoding is not modelled.
- Go's `\b` and `\f` escapes, written by newer Go releases. The quoting follows the older encoder, which writes them as `\u0008` and `\u000c`. Surrogate pairs in `\u` escapes are not decoded.
- Invalid UTF-8: strings are sequences of Unicode scalar values.
- Partial filling of a struct when `json.Unmarshal` meets a type error: such a document counts as undecodable.
- Fields of `ServerInfo` other than `Status` and `StatusLabel`. The float fields of the queue and tick messages are left out too.
- The `vm.Set("atob", atob)` error in `extractToken`: registering a Go function with goja does not fail for a plain function.
- The cookie jar: cookies are an appended sequence, so replacing a cookie of the same name is not modelled.
- `GetCookies`: it only reads the jar back.
- Logging, except the console lines the command-line client prints. `strings.Title` on the stream name in those lines is also left out.
- The message types the command-line client only logs (`queue_reduced`, `heap`, `tick`, `started`, `stopped`, `connected`, `disconnected`, `backup_progress`, unhandled types): each changes nothing in the model.
- readFile's `os.Open` and its error: the file is given as its lines, without their newlines. `url.Parse` is an oracle, `Parallel.UrlParser`, and the URL fields the proxy dialer does not read are left out.
- The blocking `readerReconnect` send in websocket/writer.go: nothing reads that channel, so a successful reconnect would block the real writer. The model records the signal and carries on.
- `Send` after `Close` in the websocket package: once the writer has returned it has closed `messageOut`, so a later `Send` panics in Go. `Session.Send` only queues.
- The reconnect fields (`readerReconnect`, `writerReconnect`, `OnReconnect`) are not declared in websocket/types.go, which would not compile as given. The model declares them as websocket/websocket.go and websocket/writer.go use them.
- Control.ConfirmServer, Legacy.LegacyConfirmServer: the synchronous polling loops take a `fuel` bound. A run that exhausts it ends as `OutOfFuel`, meaning still polling. Nothing is claimed about runs longer than the fuel. In `Parallel`, a worker blocked in such a run is `Blocked`.
- internal/tlsadapter/tls_adapter.go: the uTLS handshake wrapper is not part of this model.
- websockets.go, examples/simple-websocket/main.go and examples/simple-http/main.go are not part of this model. The first is an early prototype and the other two are demos; none adds logic beyond what is modelled.
- options.go, config.go, queue.go and backup_progress.go: types and constants only. Those the modelled code reads appear as datatypes and constants.
