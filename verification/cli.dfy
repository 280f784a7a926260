/** The command-line client (cmd/main.go): check the flags, connect, then react to each
    message from the server and to interrupts until something ends the loop.

    The loop is a fold over the events its `select` takes. Logging is left out except for
    console lines, whose text is chosen by `thisOrThat`. */
module Cli {
  import opened Base
  import opened Messages
  import Inbound
  import opened Json
  import Payload
  import opened Control
  import opened Credentials

  datatype Flags = Flags(session: string, lang: string, server: string, proxy: string)

  /** The cookies the client is created with. */
  function LaunchCookies(f: Flags): seq<Cookie> {
    [Cookie("ATERNOS_LANGUAGE", f.lang), Cookie("ATERNOS_SESSION", f.session), Cookie("ATERNOS_SERVER", f.server)]
  }

  /** `thisOrThat`: the first of the two that is not empty, or "" if neither is. */
  function ThisOrThat(left: string, right: string): (r: string)
    ensures r == "" <==> left == "" && right == ""
    ensures r == left || r == right
    ensures left != "" ==> r == left
  {
    if left != "" then left else right
  }

  /** With "" as neutral element on both sides, `thisOrThat` is associative: nesting picks
      the first non-empty string whichever way it is bracketed. */
  lemma ThisOrThatMonoid(a: string, b: string, c: string)
    ensures ThisOrThat("", a) == a && ThisOrThat(a, "") == a
    ensures ThisOrThat(a, ThisOrThat(b, c)) == ThisOrThat(ThisOrThat(a, b), c)
  {
  }

  /** What the select can take: a message from the websocket or an interrupt signal. A
      closed `Message` channel keeps yielding the zero message, since the receive does not
      check whether the channel is still open. */
  datatype Event = Received(msg: Message) | Interrupted

  datatype Effect =
    | Sent(cmd: Message)     // a stream command written to the websocket
    | HeartbeatsStarted      // `go wss.SendHearthBeats(ctx)`
    | HeartbeatsCancelled    // `cancel()`
    | Printed(line: string)  // the text of a console line
    | SocketClosed           // the deferred `wss.Close()`

  datatype Exit = StartFailed(err: Error) | WentOffline | StopFailed(err: Error)

  /** The client, what the loop has done, and why it returned, once it has. */
  datatype Cli = Cli(api: Api, effects: seq<Effect>, exit: Option<Exit>)

  /** The streams switched for a status: console on while starting; console off and heap
      and tick on once online; heap and tick off while stopping. */
  function StatusReaction(status: int): (cmds: seq<(StreamName, Toggle)>)
    ensures status != Starting && status != Online && status != Stopping ==> cmds == []
    ensures forall i, j | 0 <= i < j < |cmds| :: cmds[i].0 != cmds[j].0
  {
    if status == Starting then [(Console, Start)]
    else if status == Online then [(Console, Stop), (Heap, Start), (Tick, Start)]
    else if status == Stopping then [(Heap, Stop), (Tick, Stop)]
    else []
  }

  /** The toggles a sequence of commands applies to one stream, in order. */
  function Toggles(cmds: seq<(StreamName, Toggle)>, s: StreamName): seq<Toggle>
    decreases |cmds|
  {
    if |cmds| == 0 then []
    else (if cmds[0].0 == s then [cmds[0].1] else []) + Toggles(cmds[1..], s)
  }

  /** Through a normal run of statuses, starting, online, then stopping, every stream is
      switched on exactly once and later switched off exactly once, so none is left running
      and none is stopped before it was started. */
  lemma StreamLifecycle(s: StreamName)
    ensures Toggles(StatusReaction(Starting) + StatusReaction(Online) + StatusReaction(Stopping), s) == [Start, Stop]
  {
    TogglesAppend(StatusReaction(Starting), StatusReaction(Online), s);
    TogglesAppend(StatusReaction(Starting) + StatusReaction(Online), StatusReaction(Stopping), s);
    var start, on, off := StatusReaction(Starting), StatusReaction(Online), StatusReaction(Stopping);
    assert Toggles(start[1..], s) == [];
    assert Toggles(on[2..][1..], s) == [];
    assert Toggles(on[1..][1..], s) == Toggles([(Tick, Start)], s);
    assert Toggles(off[1..][1..], s) == [];
    match s
    case Console =>
      assert Toggles(start, s) == [Start];
      assert Toggles(on, s) == [Stop];
      assert Toggles(off, s) == [];
    case Heap =>
      assert Toggles(start, s) == [];
      assert Toggles(on, s) == [Start];
      assert Toggles(off, s) == [Stop];
    case Tick =>
      assert Toggles(start, s) == [];
      assert Toggles(on, s) == [Start];
      assert Toggles(off, s) == [Stop];
  }

  lemma {:induction false} TogglesAppend(a: seq<(StreamName, Toggle)>, b: seq<(StreamName, Toggle)>, s: StreamName)
    ensures Toggles(a + b, s) == Toggles(a, s) + Toggles(b, s)
    decreases |a|
  {
    if |a| == 0 {
      assert a + b == b;
    } else {
      assert (a + b)[0] == a[0];
      assert (a + b)[1..] == a[1..] + b;
      TogglesAppend(a[1..], b, s);
      assert Toggles(a + b, s) == (if a[0].0 == s then [a[0].1] else []) + Toggles(a[1..] + b, s);
    }
  }

  /** The effects of sending the given commands, in order. */
  function Commands(cmds: seq<(StreamName, Toggle)>): (es: seq<Effect>)
    ensures |es| == |cmds|
    ensures forall i | 0 <= i < |cmds| :: es[i] == Sent(StreamCommand(cmds[i].0, cmds[i].1))
  {
    seq(|cmds|, i requires 0 <= i < |cmds| => Sent(StreamCommand(cmds[i].0, cmds[i].1)))
  }

  /** `json.Unmarshal(msg.MessageBytes, &serverInfo)` with the error ignored: a nil or
      undecodable text leaves the zero `ServerInfo`, whose status is offline. */
  function StatusOf(m: Message, env: Env): (info: ServerInfo)
    ensures m.messageBytes.None? ==> info == ZeroInfo
    ensures m.messageBytes.Some? && env.decodeInfo(m.messageBytes.value).Some? ==>
      info == env.decodeInfo(m.messageBytes.value).value
  {
    match m.messageBytes
    case None => ZeroInfo
    case Some(b) =>
      match env.decodeInfo(b)
      case None => ZeroInfo
      case Some(info) => info
  }

  /** Returning from `main`: the deferred close runs. */
  function Leave(c: Cli, why: Exit): Cli {
    c.(effects := c.effects + [SocketClosed], exit := Some(why))
  }

  /** One turn of the loop. */
  function Step(c: Cli, env: Env, e: Event): (d: Cli)
    ensures c.exit.Some? ==> d == c
    ensures |d.effects| >= |c.effects| && d.effects[..|c.effects|] == c.effects
    ensures c.exit.None? && d.exit.Some? ==> |d.effects| > 0 && d.effects[|d.effects| - 1] == SocketClosed
  {
    if c.exit.Some? then c
    else match e
      case Interrupted =>
        var r := StopServer(c.api, env);
        if r.err.Fail? then Leave(c.(api := r.api), StopFailed(r.err.error)) else c.(api := r.api)
      case Received(m) =>
        if m.kind == "ready" then
          var r := StartServer(c.api, env);
          if r.err.Fail? then Leave(c.(api := r.api), StartFailed(r.err.error))
          else c.(api := r.api, effects := c.effects + [HeartbeatsStarted])
        else if m.kind == "status" then
          var info := StatusOf(m, env);
          if info.status == Offline then Leave(c.(effects := c.effects + [HeartbeatsCancelled]), WentOffline)
          else c.(effects := c.effects + Commands(StatusReaction(info.status)))
        else if m.kind == "line" then
          c.(effects := c.effects + [Printed(ThisOrThat(m.data.content, m.kind))])
        else c
  }

  /** The loop over a sequence of events. */
  function Run(c: Cli, env: Env, events: seq<Event>): (d: Cli)
    ensures |d.effects| >= |c.effects| && d.effects[..|c.effects|] == c.effects
    decreases |events|
  {
    if |events| == 0 then c else Run(Step(c, env, events[0]), env, events[1..])
  }

  /** How `main` ends: usage printed, the connection refused (`log.Fatal`), or the loop's
      state after the events seen. */
  datatype Ending = UsageShown | ConnectFailed(err: Error) | Looped(cli: Cli)

  /** `main` with the flags, the dial's result and the events the loop takes. */
  function Main(f: Flags, dial: Result<ConnId>, env: Env, events: seq<Event>): (r: Ending)
    ensures r == UsageShown <==> f.session == "" || f.server == ""
    ensures r.ConnectFailed? <==> f.session != "" && f.server != "" && dial.Err?
    ensures r.Looped? ==> |r.cli.api.cookies| >= 3 && r.cli.api.cookies[..3] == LaunchCookies(f)
  {
    if f.session == "" || f.server == "" then UsageShown
    else match dial
      case Err(e) => ConnectFailed(e)
      case Ok(_) =>
        var c := Run(Cli(Api("", "", LaunchCookies(f), [], 0, 0), [], None), env, events);
        RunKeepsCookies(Cli(Api("", "", LaunchCookies(f), [], 0, 0), [], None), env, events);
        Looped(c)
  }

  lemma {:induction false} RunKeepsCookies(c: Cli, env: Env, events: seq<Event>)
    ensures |Run(c, env, events).api.cookies| >= |c.api.cookies|
    ensures Run(c, env, events).api.cookies[..|c.api.cookies|] == c.api.cookies
    decreases |events|
  {
    if |events| > 0 {
      var d := Step(c, env, events[0]);
      assert |d.api.cookies| >= |c.api.cookies| && d.api.cookies[..|c.api.cookies|] == c.api.cookies by {
        StepKeepsCookies(c, env, events[0]);
      }
      RunKeepsCookies(d, env, events[1..]);
      assert Run(c, env, events).api.cookies[..|c.api.cookies|]
        == Run(d, env, events[1..]).api.cookies[..|d.api.cookies|][..|c.api.cookies|];
    }
  }

  /** The client only ever adds cookies (the SEC cookies). */
  lemma StepKeepsCookies(c: Cli, env: Env, e: Event)
    ensures |Step(c, env, e).api.cookies| >= |c.api.cookies|
    ensures Step(c, env, e).api.cookies[..|c.api.cookies|] == c.api.cookies
  {
    if c.exit.None? {
      FetchKeepsCookies(c.api, env);
      match e
      case Interrupted =>
        assert Step(c, env, e).api == StopServer(c.api, env).api;
      case Received(m) =>
        if m.kind == "ready" {
          assert Step(c, env, e).api == StartServer(c.api, env).api;
        } else {
          assert Step(c, env, e).api == c.api;
        }
    }
  }

  lemma FetchKeepsCookies(api: Api, env: Env)
    ensures |GetServerInfo(api, env).api.cookies| >= |api.cookies|
    ensures GetServerInfo(api, env).api.cookies[..|api.cookies|] == api.cookies
    ensures StartServer(api, env).api.cookies == GetServerInfo(api, env).api.cookies
    ensures StopServer(api, env).api.cookies == GetServerInfo(api, env).api.cookies
  {
    var f := GetServerInfo(api, env);
    if f.api.draws != api.draws {
      assert f.api.cookies[..|api.cookies|] == api.cookies;
    }
  }

  /** A missing flag ends the program before any connection: the dial's outcome and the
      events make no difference. */
  lemma UsageBeforeConnecting(f: Flags, d1: Result<ConnId>, d2: Result<ConnId>, env: Env, e1: seq<Event>, e2: seq<Event>)
    requires f.session == "" || f.server == ""
    ensures Main(f, d1, env, e1) == Main(f, d2, env, e2) == UsageShown
  {
  }

  /** Once the loop has returned, nothing further happens. */
  lemma {:induction false} ExitIsFinal(c: Cli, env: Env, events: seq<Event>)
    requires c.exit.Some?
    ensures Run(c, env, events) == c
    decreases |events|
  {
    if |events| > 0 {
      ExitIsFinal(Step(c, env, events[0]), env, events[1..]);
    }
  }

  /** A status message switches exactly the streams of the table, in the table's order, each
      command readable back as its stream and action; an offline status cancels the
      heartbeats and returns, closing the socket. */
  lemma StatusDispatch(c: Cli, env: Env, m: Message)
    requires c.exit.None? && m.kind == "status"
    ensures var d := Step(c, env, Received(m));
      var s := StatusOf(m, env).status;
      && (s == Offline ==> d.exit == Some(WentOffline) && d.effects == c.effects + [HeartbeatsCancelled, SocketClosed])
      && (s != Offline ==>
            && d.exit.None? && d.api == c.api
            && |d.effects| == |c.effects| + |StatusReaction(s)|
            && d.effects[..|c.effects|] == c.effects
            && (forall i | 0 <= i < |StatusReaction(s)| ::
                  d.effects[|c.effects| + i].Sent? && AsCommand(d.effects[|c.effects| + i].cmd) == Some(StatusReaction(s)[i])))
  {
    var d := Step(c, env, Received(m));
    var s := StatusOf(m, env).status;
    if s != Offline {
      var cmds := StatusReaction(s);
      assert d.effects == c.effects + Commands(cmds);
      forall i | 0 <= i < |cmds|
        ensures d.effects[|c.effects| + i].Sent? && AsCommand(d.effects[|c.effects| + i].cmd) == Some(cmds[i])
      {
        assert d.effects[|c.effects| + i] == Commands(cmds)[i];
        CommandRoundTrip(cmds[i].0, cmds[i].1);
      }
    }
  }

  /** A status frame whose `message` key is spelled in lower case reaches the loop with
      `MessageBytes` set, and a server that is up keeps the loop running. */
  lemma LowerCaseStatusFrame(c: Cli, env: Env, raw: string, t: string, lib: JsonLib)
    requires c.exit.None? && t != ""
    requires lib.parse(raw) == Some(Object(map["type" := Str("status"), "message" := Str(t)]))
    requires env.decodeInfo(t).Some? && env.decodeInfo(t).value.status != Offline
    ensures Inbound.Step(Inbound.Text(raw), lib) == [Message("", "status", t, Some(t), Payload.Zero, "")]
    ensures Step(c, env, Received(Message("", "status", t, Some(t), Payload.Zero, ""))).exit.None?
  {
    LowerCaseMessageKey(t, lib);
  }

  /** A status message without bytes, or whose bytes do not decode, reads as offline: the
      client cancels the heartbeats and returns. */
  lemma UndecodableStatusStops(c: Cli, env: Env, m: Message)
    requires c.exit.None? && m.kind == "status"
    requires m.messageBytes.None? || env.decodeInfo(m.messageBytes.value).None?
    ensures Step(c, env, Received(m)).exit == Some(WentOffline)
  {
  }

  /** After the `Message` channel is closed the loop takes zero messages forever and never
      returns: each one falls through to the default case. */
  lemma {:induction false} ClosedChannelSpins(c: Cli, env: Env, n: nat)
    requires c.exit.None?
    ensures Run(c, env, seq(n, _ => Received(Empty))) == c
    decreases n
  {
    if n > 0 {
      var events := seq(n, _ => Received(Empty));
      assert events[0] == Received(Empty);
      assert events[1..] == seq(n - 1, _ => Received(Empty));
      ClosedChannelSpins(c, env, n - 1);
    }
  }

  /** An interrupt ends the loop exactly when `StopServer` fails. */
  lemma InterruptExitsOnFailure(c: Cli, env: Env)
    requires c.exit.None?
    ensures Step(c, env, Interrupted).exit.Some? <==> StopServer(c.api, env).err.Fail?
    ensures Step(c, env, Interrupted).api == StopServer(c.api, env).api
  {
  }

  /** "ready" starts the server; the heartbeats start only if that succeeded, and otherwise
      the loop returns with the error. */
  lemma ReadyStartsHeartbeats(c: Cli, env: Env, m: Message)
    requires c.exit.None? && m.kind == "ready"
    ensures var d := Step(c, env, Received(m));
      var r := StartServer(c.api, env);
      && d.api == r.api
      && (r.err.Pass? ==> d.exit.None? && d.effects == c.effects + [HeartbeatsStarted])
      && (r.err.Fail? ==> d.exit == Some(StartFailed(r.err.error)) && d.effects == c.effects + [SocketClosed])
  {
  }

  /** A console line prints its data when there is any, and its type otherwise. */
  lemma LinePrinted(c: Cli, env: Env, m: Message)
    requires c.exit.None? && m.kind == "line"
    ensures Step(c, env, Received(m)).effects
      == c.effects + [Printed(if m.data.content != "" then m.data.content else "line")]
  {
  }
}
