/** The multi-server example (examples/parallel-websocket/main.go): read one session per
    line, then run one worker per session that starts, confirms and stops its server
    from the websocket's messages. The file is given as its lines and each worker's
    `select` as the sequence of events it takes. */
module Parallel {
  import opened Base
  import opened Strings
  import opened Messages
  import opened Control
  import opened Credentials
  import Cli
  import Proxy

  /** The options built for one line: the cookies and the proxy URL, if any. */
  datatype Options = Options(cookies: seq<Cookie>, proxy: Option<Proxy.ProxyUrl>)

  /** `url.Parse`, given as an oracle: `None` when it returns an error (and a nil URL). */
  type UrlParser = string -> Option<Proxy.ProxyUrl>

  const InvalidLine := Err(InvalidSessions)

  /** The options for a line's comma-separated fields: a third field sets the proxy only
      when it parses, since a failed parse hands back a nil URL. */
  function LineOptions(fields: seq<string>, parseUrl: UrlParser): (o: Options)
    requires |fields| >= 2
    ensures o.proxy.Some? <==> |fields| >= 3 && parseUrl(fields[2]).Some?
    ensures o.proxy.Some? ==> o.proxy == parseUrl(fields[2])
  {
    Options(
      [Cookie("ATERNOS_LANGUAGE", "en"), Cookie("ATERNOS_SESSION", fields[0]), Cookie("ATERNOS_SERVER", fields[1])],
      if |fields| >= 3 then parseUrl(fields[2]) else None)
  }

  /** `bufio.MaxScanTokenSize`: the most bytes the Scanner's buffer grows to. */
  const MaxScanTokenSize := 64 * 1024

  /** A line the Scanner cannot buffer: its bytes and the newline after it do not fit (at
      the end of the file, a line that fills the buffer fails the same way). */
  predicate TooLong(line: string) {
    |Utf8Bytes(line)| >= MaxScanTokenSize
  }

  /** The number of lines `scanner.Scan()` yields: it stops at the first line that is too
      long, and nothing checks `scanner.Err()` afterwards. */
  function Scanned(lines: seq<string>): (n: nat)
    ensures n <= |lines|
    ensures forall i | 0 <= i < n :: !TooLong(lines[i])
    ensures n < |lines| ==> TooLong(lines[n])
    decreases |lines|
  {
    if |lines| == 0 || TooLong(lines[0]) then 0 else 1 + Scanned(lines[1..])
  }

  /** `scanner.Text()` for a line: `ScanLines` drops one trailing carriage return. */
  function Token(line: string): (t: string)
    ensures t == line || t + "\r" == line
  {
    if |line| > 0 && line[|line| - 1] == '\r' then line[..|line| - 1] else line
  }

  /** `readFile` after the file is opened, given the file as its lines without their
      newlines: one set of options per scanned line, in order, or an error for the whole
      file as soon as a scanned line has fewer than two fields. A line too long to scan
      ends the list there, with no error. */
  method ReadFile(lines: seq<string>, parseUrl: UrlParser) returns (r: Result<seq<Options>>)
    ensures r.Ok? <==> forall i | 0 <= i < Scanned(lines) :: |Split(Token(lines[i]), ',')| >= 2
    ensures r.Err? ==> r == InvalidLine
    ensures r.Ok? ==> |r.value| == Scanned(lines)
    ensures r.Ok? ==> forall i | 0 <= i < Scanned(lines) ::
      r.value[i] == LineOptions(Split(Token(lines[i]), ','), parseUrl)
  {
    var apis: seq<Options> := [];
    var n := Scanned(lines);
    var i := 0;
    while i < |lines| && !TooLong(lines[i])
      invariant 0 <= i <= n
      invariant |apis| == i
      invariant forall j | 0 <= j < i ::
        |Split(Token(lines[j]), ',')| >= 2 && apis[j] == LineOptions(Split(Token(lines[j]), ','), parseUrl)
    {
      var split := Split(Token(lines[i]), ',');
      if |split| < 2 {
        assert i < n;
        return InvalidLine;
      }
      apis := apis + [LineOptions(split, parseUrl)];
      i := i + 1;
    }
    assert i == n;
    return Ok(apis);
  }

  /** The Scanner yields exactly the lines before the first one too long to buffer, so a
      long line silently drops itself and every line after it. */
  lemma {:induction false} ScannedPrefix(lines: seq<string>, k: nat)
    requires k <= |lines| && forall i | 0 <= i < k :: !TooLong(lines[i])
    ensures Scanned(lines) == k <==> k == |lines| || TooLong(lines[k])
    decreases k
  {
    if k > 0 {
      ScannedPrefix(lines[1..], k - 1);
    }
  }

  /** The fields of a line come back as cookies and proxy: the first two are the session
      and the server, the third, if present, is parsed as the proxy URL, and any further
      ones are ignored. */
  lemma LineFields(session: string, server: string, rest: seq<string>, parseUrl: UrlParser)
    requires ',' !in session && ',' !in server
    requires forall i | 0 <= i < |rest| :: ',' !in rest[i]
    ensures Split(Join([session, server] + rest, ','), ',') == [session, server] + rest
    ensures var o := LineOptions(Split(Join([session, server] + rest, ','), ','), parseUrl);
      && o.cookies == [Cookie("ATERNOS_LANGUAGE", "en"), Cookie("ATERNOS_SESSION", session), Cookie("ATERNOS_SERVER", server)]
      && o.proxy == (if |rest| > 0 then parseUrl(rest[0]) else None)
  {
    var parts := [session, server] + rest;
    forall i | 0 <= i < |parts|
      ensures ',' !in parts[i]
    {
      if i >= 2 {
        assert parts[i] == rest[i - 2];
      }
    }
    SplitJoin(parts, ',');
  }

  /** An empty line, like any line without a comma, has a single field. */
  lemma LineWithoutComma(line: string)
    ensures |Split(line, ',')| < 2 <==> ',' !in line
  {
    SplitSingleIff(line, ',');
  }

  /** What a worker's `select` can take. */
  datatype Event = Received(msg: Message) | ChannelClosed | Interrupted

  datatype Effect =
    | HeartbeatsStarted  // `go wss.StartHearthBeat(ctx)`
    | Cancelled          // `cancel()` in the deferred cleanup
    | SocketClosed       // `wss.Close()` in the deferred cleanup
    | Done               // `wg.Done()`

  /** Running, returned, or blocked in a synchronous `ConfirmServer` still polling when the
      model's fuel ran out. */
  datatype Phase = Running | Returned | Blocked

  datatype Worker = Worker(api: Api, effects: seq<Effect>, phase: Phase)

  /** The delay `start` passes to `ConfirmServer`. */
  const ConfirmDelay: Duration := 10 * Second

  /** Returning from the loop: the deferred cleanup cancels, closes and releases the
      wait group. */
  function Return(w: Worker): Worker {
    w.(effects := w.effects + [Cancelled, SocketClosed, Done], phase := Returned)
  }

  /** One turn of the loop; `fuel` bounds each synchronous `ConfirmServer`. */
  function Step(w: Worker, env: Env, e: Event, fuel: nat): (v: Worker)
    ensures !w.phase.Running? ==> v == w
    ensures |v.effects| >= |w.effects| && v.effects[..|w.effects|] == w.effects
    ensures w.phase.Running? && v.phase.Returned? ==> v.effects[|w.effects|..] == [Cancelled, SocketClosed, Done]
  {
    if !w.phase.Running? then w
    else match e
      case ChannelClosed => Return(w)
      case Interrupted =>
        var r := StopServer(w.api, env);
        if r.err.Fail? then Return(w.(api := r.api)) else w.(api := r.api)
      case Received(m) =>
        if m.kind == "ready" then
          var r := StartServer(w.api, env);
          if r.err.Fail? then Return(w.(api := r.api))
          else w.(api := r.api, effects := w.effects + [HeartbeatsStarted])
        else if m.kind == "status" then
          var info := Cli.StatusOf(m, env);
          if info.statusLabel == "waiting" then
            match ConfirmServer(w.api, env, Nil, ConfirmDelay, fuel)
            case OutOfFuel(a) => w.(api := a, phase := Blocked)
            case Finished(a, _) => if info.status == Offline then Return(w.(api := a)) else w.(api := a)
          else if info.status == Offline then Return(w)
          else w
        else w
  }

  function Run(w: Worker, env: Env, events: seq<Event>, fuel: nat): (v: Worker)
    ensures |v.effects| >= |w.effects| && v.effects[..|w.effects|] == w.effects
    decreases |events|
  {
    if |events| == 0 then w else Run(Step(w, env, events[0], fuel), env, events[1..], fuel)
  }

  /** `start`: a failed connection releases the wait group at once; otherwise the loop
      runs, with the cleanup deferred. */
  function Start(connect: Result<ConnId>, api: Api, env: Env, events: seq<Event>, fuel: nat): (w: Worker)
    ensures multiset(w.effects)[Done] == (if w.phase.Returned? then 1 else 0)
    ensures w.phase.Returned? ==> w.effects[|w.effects| - 1] == Done
    ensures connect.Err? ==> w.effects == [Done]
  {
    match connect
    case Err(_) => Worker(api, [Done], Returned)
    case Ok(_) =>
      RunReleased(Worker(api, [], Running), env, events, fuel);
      Run(Worker(api, [], Running), env, events, fuel)
  }

  /** The wait-group discipline: released once when returned, not yet otherwise, and the
      release is the last thing done. */
  predicate Released(w: Worker) {
    && multiset(w.effects)[Done] == (if w.phase.Returned? then 1 else 0)
    && (w.phase.Returned? ==> |w.effects| > 0 && w.effects[|w.effects| - 1] == Done)
  }

  lemma StepReleased(w: Worker, env: Env, e: Event, fuel: nat)
    requires Released(w)
    ensures Released(Step(w, env, e, fuel))
  {
  }

  lemma {:induction false} RunReleased(w: Worker, env: Env, events: seq<Event>, fuel: nat)
    requires Released(w)
    ensures Released(Run(w, env, events, fuel))
    decreases |events|
  {
    if |events| > 0 {
      StepReleased(w, env, events[0], fuel);
      RunReleased(Step(w, env, events[0], fuel), env, events[1..], fuel);
    }
  }

  /** The deferred cleanup cancels the heartbeats and closes the socket before releasing. */
  lemma CleanupOrder(w: Worker)
    ensures Return(w).effects[|w.effects|..] == [Cancelled, SocketClosed, Done]
  {
  }

  /** Once returned or blocked, the worker does nothing more. */
  lemma {:induction false} StoppedStays(w: Worker, env: Env, events: seq<Event>, fuel: nat)
    requires !w.phase.Running?
    ensures Run(w, env, events, fuel) == w
    decreases |events|
  {
    if |events| > 0 {
      StoppedStays(Step(w, env, events[0], fuel), env, events[1..], fuel);
    }
  }

  /** The loop returns on a closed channel, and on an offline status whose label is not
      "waiting" without any request. */
  lemma StopConditions(w: Worker, env: Env, m: Message, fuel: nat)
    requires w.phase.Running?
    ensures Step(w, env, ChannelClosed, fuel) == Return(w)
    ensures m.kind == "status" && Cli.StatusOf(m, env).status == Offline && Cli.StatusOf(m, env).statusLabel != "waiting"
      ==> Step(w, env, Received(m), fuel) == Return(w)
  {
  }

  /** A "waiting" status runs the synchronous `ConfirmServer` with a ten-second delay, and
      its error does not end the loop; only an offline status does. */
  lemma WaitingConfirms(w: Worker, env: Env, m: Message, fuel: nat)
    requires w.phase.Running? && m.kind == "status" && Cli.StatusOf(m, env).statusLabel == "waiting"
    requires ConfirmServer(w.api, env, Nil, ConfirmDelay, fuel).Finished?
    ensures var d := Step(w, env, Received(m), fuel);
      var a := ConfirmServer(w.api, env, Nil, ConfirmDelay, fuel).api;
      d == (if Cli.StatusOf(m, env).status == Offline then Return(w.(api := a)) else w.(api := a))
  {
  }
}
