/** The `Websocket` handle of the websocket package (websocket/websocket.go): its
    constructor, `Send`, `Close` and the command helpers, which talk to the writer
    goroutine only through channels. The events a handle hands to its writer are kept
    in `outbox`, in the order the writer will take them. */
module Session {
  import opened Base
  import opened Messages
  import Writer
  import Wire

  /** A channel: its identity, its buffer size and whether it has been closed. */
  datatype Chan = Chan(id: nat, capacity: nat, closed: bool)

  /** `Websocket`, with the reconnect fields websocket/types.go does not declare but
      websocket/websocket.go and websocket/writer.go use. `onReconnect` identifies the
      `RetryFunc`. */
  datatype Websocket = Websocket(
    readerDone: Chan,
    writerDone: Chan,
    message: Chan,
    messageOut: Chan,
    readerReconnect: Chan,
    writerReconnect: Chan,
    conn: Option<ConnId>,
    onReconnect: nat,
    outbox: seq<Writer.Event>)

  function Channels(w: Websocket): seq<Chan> {
    [w.readerDone, w.writerDone, w.message, w.messageOut, w.readerReconnect, w.writerReconnect]
  }

  /** `New(conn, reconnect)`; `next` is the first channel identity not yet in use. */
  function New(conn: Option<ConnId>, reconnect: nat, next: nat): (w: Websocket)
    ensures w.conn == conn && w.onReconnect == reconnect && w.outbox == []
    ensures forall i | 0 <= i < 6 :: var c := Channels(w)[i]; next <= c.id && c.capacity == 0 && !c.closed
    ensures forall i, j | 0 <= i < j < 6 :: Channels(w)[i].id != Channels(w)[j].id
  {
    Websocket(Chan(next, 0, false), Chan(next + 1, 0, false), Chan(next + 2, 0, false),
              Chan(next + 3, 0, false), Chan(next + 4, 0, false), Chan(next + 5, 0, false),
              conn, reconnect, [])
  }

  /** `Send`: the message goes to the writer unchanged, after everything sent before it. */
  function Send(w: Websocket, m: Message): (w': Websocket)
    ensures |w'.outbox| == |w.outbox| + 1 && w'.outbox[..|w.outbox|] == w.outbox
    ensures w'.outbox[|w.outbox|] == Writer.Out(m)
    ensures w'.(outbox := w.outbox) == w
  {
    w.(outbox := w.outbox + [Writer.Out(m)])
  }

  /** The six stream helpers and `SendHeartBeat`. */
  function SendCommand(w: Websocket, s: StreamName, t: Toggle): Websocket {
    Send(w, StreamCommand(s, t))
  }

  function SendHeartBeat(w: Websocket): Websocket {
    Send(w, Heartbeat())
  }

  /** The result of `Close`: the handle afterwards and the error returned, or a panic. */
  datatype Closing = Closed(w: Websocket, err: Outcome) | Panicked

  /** `Close`: closing `writerDone` a second time panics; otherwise the writer is told to
      finish, and the result is `nil` when the reader finishes within the timeout and the
      error of force-closing the connection (`forceClose`) when it does not. */
  function Close(w: Websocket, readerFinished: bool, forceClose: Outcome): (r: Closing)
    ensures r.Panicked? <==> w.writerDone.closed
    ensures r.Closed? ==> r.w.writerDone.closed && r.w.outbox == w.outbox + [Writer.Done]
    ensures r.Closed? ==> (r.err == if readerFinished then Pass else forceClose)
  {
    if w.writerDone.closed then Panicked
    else Closed(w.(writerDone := w.writerDone.(closed := true), outbox := w.outbox + [Writer.Done]),
                if readerFinished then Pass else forceClose)
  }

  /** `Close` can be called at most once. */
  lemma CloseTwicePanics(w: Websocket, f1: bool, e1: Outcome, f2: bool, e2: Outcome)
    requires Close(w, f1, e1).Closed?
    ensures Close(Close(w, f1, e1).w, f2, e2) == Panicked
  {
  }

  function SendAll(w: Websocket, ms: seq<Message>): (w': Websocket)
    ensures w'.conn == w.conn && w'.writerDone == w.writerDone
    decreases |ms|
  {
    if |ms| == 0 then w else SendAll(Send(w, ms[0]), ms[1..])
  }

  lemma {:induction false} SendAllOutbox(w: Websocket, ms: seq<Message>)
    ensures SendAll(w, ms).outbox == w.outbox + seq(|ms|, i requires 0 <= i < |ms| => Writer.Out(ms[i]))
    decreases |ms|
  {
    if |ms| > 0 {
      SendAllOutbox(Send(w, ms[0]), ms[1..]);
      var f := seq(|ms|, i requires 0 <= i < |ms| => Writer.Out(ms[i]));
      var g := seq(|ms| - 1, i requires 0 <= i < |ms| - 1 => Writer.Out(ms[1..][i]));
      assert f == [Writer.Out(ms[0])] + g;
    }
  }

  lemma {:induction false} SentOuts(ms: seq<Message>, rest: seq<Writer.Event>)
    ensures Writer.Sent(seq(|ms|, i requires 0 <= i < |ms| => Writer.Out(ms[i])) + rest)
      == ms + Writer.Sent(rest)
    decreases |ms|
  {
    var f := seq(|ms|, i requires 0 <= i < |ms| => Writer.Out(ms[i]));
    if |ms| == 0 {
      assert f + rest == rest;
    } else {
      var g := seq(|ms| - 1, i requires 0 <= i < |ms| - 1 => Writer.Out(ms[1..][i]));
      assert (f + rest)[0] == Writer.Out(ms[0]);
      assert (f + rest)[1..] == g + rest;
      SentOuts(ms[1..], rest);
      assert ms == [ms[0]] + ms[1..];
    }
  }

  /** A fresh handle, some sends, then `Close`: the writer writes exactly the sent messages,
      in order, then the normal-closure frame, and returns having closed both its channels. */
  lemma SendsThenClose(conn: Option<ConnId>, reconnect: nat, next: nat, ms: seq<Message>,
                       readerFinished: bool, forceClose: Outcome)
    ensures var w := SendAll(New(conn, reconnect, next), ms);
      && Close(w, readerFinished, forceClose).Closed?
      && var run := Writer.Run(Writer.Init(conn), Close(w, readerFinished, forceClose).w.outbox);
      && Writer.Writes(run.trace) == ms
      && !run.running
      && |run.trace| >= 3
      && run.trace[|run.trace| - 3..] == [Writer.WriteControl(conn, Wire.NormalClose())] + Writer.ExitCloses
  {
    var w := SendAll(New(conn, reconnect, next), ms);
    SendAllOutbox(New(conn, reconnect, next), ms);
    var outs := seq(|ms|, i requires 0 <= i < |ms| => Writer.Out(ms[i]));
    var events := Close(w, readerFinished, forceClose).w.outbox;
    assert events == outs + [Writer.Done];
    Writer.RunWrites(Writer.Init(conn), events);
    SentOuts(ms, [Writer.Done]);
    Writer.RunningIff(Writer.Init(conn), events);
    assert Writer.Ends(events[|events| - 1]);
    RunOutsThenDone(conn, ms);
  }

  /** Running the writer over sends followed by `Done` leaves the close frame and the two
      channel closes at the end of its trace. */
  lemma RunOutsThenDone(conn: Option<ConnId>, ms: seq<Message>)
    ensures var outs := seq(|ms|, i requires 0 <= i < |ms| => Writer.Out(ms[i]));
      var run := Writer.Run(Writer.Init(conn), outs + [Writer.Done]);
      |run.trace| >= 3 && run.trace[|run.trace| - 3..] == [Writer.WriteControl(conn, Wire.NormalClose())] + Writer.ExitCloses
  {
    var outs := seq(|ms|, i requires 0 <= i < |ms| => Writer.Out(ms[i]));
    var s := RunOuts(Writer.Init(conn), ms);
    RunAppend(Writer.Init(conn), outs, [Writer.Done]);
    var t := Writer.Step(s, Writer.Done);
    assert Writer.Run(s, [Writer.Done]) == Writer.Run(t, []);
    assert t.trace == s.trace + [Writer.WriteControl(conn, Wire.NormalClose())] + Writer.ExitCloses;
  }

  /** Sends alone keep the writer running on the same connection. */
  lemma {:induction false} RunOutsKeeps(s: Writer.State, ms: seq<Message>)
    requires s.running
    ensures var outs := seq(|ms|, i requires 0 <= i < |ms| => Writer.Out(ms[i]));
      Writer.Run(s, outs).running && Writer.Run(s, outs).conn == s.conn
    decreases |ms|
  {
    var outs := seq(|ms|, i requires 0 <= i < |ms| => Writer.Out(ms[i]));
    if |ms| > 0 {
      var g := seq(|ms| - 1, i requires 0 <= i < |ms| - 1 => Writer.Out(ms[1..][i]));
      assert outs[0] == Writer.Out(ms[0]) && outs[1..] == g;
      RunOutsKeeps(Writer.Step(s, outs[0]), ms[1..]);
    }
  }

  function RunOuts(s: Writer.State, ms: seq<Message>): (t: Writer.State)
    requires s.running
    ensures t == Writer.Run(s, seq(|ms|, i requires 0 <= i < |ms| => Writer.Out(ms[i])))
    ensures t.running && t.conn == s.conn
  {
    RunOutsKeeps(s, ms);
    Writer.Run(s, seq(|ms|, i requires 0 <= i < |ms| => Writer.Out(ms[i])))
  }

  lemma {:induction false} RunAppend(s: Writer.State, a: seq<Writer.Event>, b: seq<Writer.Event>)
    ensures Writer.Run(s, a + b) == Writer.Run(Writer.Run(s, a), b)
    decreases |a|
  {
    if |a| == 0 {
      assert a + b == b;
    } else {
      assert (a + b)[0] == a[0] && (a + b)[1..] == a[1..] + b;
      RunAppend(Writer.Step(s, a[0]), a[1..], b);
    }
  }
}
