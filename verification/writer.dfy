/** `startWriter` (websocket/writer.go): the goroutine that owns all writes to the
    connection. Its `select` is modelled as the sequence of events it takes, in the
    order it takes them; what it does to the connection is recorded as a trace.

    `WriteJSON` and close-frame failures are only logged, so they have no effect on the
    trace and events carry no write outcome. */
module Writer {
  import opened Base
  import opened Messages
  import opened Wire

  /** What the `select` receives. */
  datatype Event =
    | Out(msg: Message)                         // a message from `messageOut`
    | Done                                      // `writerDone` was closed
    | Reconnect(conn: Option<ConnId>, ok: bool) // a signal on `writerReconnect`, with what `OnReconnect` returned

  datatype Chan = WriterReconnect | MessageOut

  /** What the writer does to the outside world, in order. */
  datatype Action =
    | WriteJson(conn: Option<ConnId>, msg: Message)
    | WriteControl(conn: Option<ConnId>, payload: seq<int>)
    | CloseConn(conn: Option<ConnId>)
    | CallOnReconnect
    | SignalReader
    | CloseChan(ch: Chan)

  datatype State = State(conn: Option<ConnId>, trace: seq<Action>, running: bool)

  function Init(conn: Option<ConnId>): State {
    State(conn, [], true)
  }

  /** The two deferred closes, run last-in first-out when the loop returns. */
  const ExitCloses := [CloseChan(WriterReconnect), CloseChan(MessageOut)]

  /** The events after which the loop returns. */
  predicate Ends(e: Event) {
    e.Done? || (e.Reconnect? && !e.ok)
  }

  /** One pass of the loop. */
  function Step(s: State, e: Event): (t: State)
    ensures !s.running ==> t == s
    ensures s.running ==> |t.trace| > |s.trace| && t.trace[..|s.trace|] == s.trace
    ensures s.running ==> (t.running <==> !Ends(e))
    ensures s.running && e.Reconnect? ==> t.trace[|s.trace|] == CloseConn(s.conn) && t.conn == e.conn
  {
    if !s.running then s
    else match e
      case Out(m) => s.(trace := s.trace + [WriteJson(s.conn, m)])
      case Done => State(s.conn, s.trace + [WriteControl(s.conn, NormalClose())] + ExitCloses, false)
      case Reconnect(c, ok) =>
        var t := s.trace + [CloseConn(s.conn), CallOnReconnect];
        if ok then State(c, t + [SignalReader], true) else State(c, t + ExitCloses, false)
  }

  /** The loop over a finite sequence of events. */
  function Run(s: State, events: seq<Event>): (t: State)
    ensures |t.trace| >= |s.trace| && t.trace[..|s.trace|] == s.trace
    decreases |events|
  {
    if |events| == 0 then s else Run(Step(s, events[0]), events[1..])
  }

  /** The messages taken from `messageOut` before the loop returns. */
  function Sent(events: seq<Event>): seq<Message>
    decreases |events|
  {
    if |events| == 0 || Ends(events[0]) then []
    else (if events[0].Out? then [events[0].msg] else []) + Sent(events[1..])
  }

  /** The messages written with `WriteJSON`, in order. */
  function Writes(trace: seq<Action>): seq<Message>
    decreases |trace|
  {
    if |trace| == 0 then []
    else (if trace[0].WriteJson? then [trace[0].msg] else []) + Writes(trace[1..])
  }

  lemma {:induction false} WritesAppend(a: seq<Action>, b: seq<Action>)
    ensures Writes(a + b) == Writes(a) + Writes(b)
    decreases |a|
  {
    if |a| == 0 {
      assert a + b == b;
    } else {
      assert (a + b)[0] == a[0] && (a + b)[1..] == a[1..] + b;
      WritesAppend(a[1..], b);
    }
  }

  lemma {:induction false} NoWrites(trace: seq<Action>)
    requires forall i | 0 <= i < |trace| :: !trace[i].WriteJson?
    ensures Writes(trace) == []
    decreases |trace|
  {
    if |trace| > 0 {
      NoWrites(trace[1..]);
    }
  }

  /** One pass writes the message it takes, if any, and nothing else. */
  lemma StepWrites(s: State, e: Event)
    requires s.running
    ensures Writes(Step(s, e).trace) == Writes(s.trace) + (if e.Out? then [e.msg] else [])
  {
    var t := Step(s, e);
    var added := t.trace[|s.trace|..];
    assert t.trace == s.trace + added;
    WritesAppend(s.trace, added);
    if e.Out? {
      assert added == [WriteJson(s.conn, e.msg)];
    } else {
      assert forall i | 0 <= i < |added| :: !added[i].WriteJson?;
      NoWrites(added);
    }
  }

  /** Every message taken before the loop returns is written, in the order taken, and
      nothing else is: a failed write neither stops the loop nor reorders it. */
  lemma {:induction false} RunWrites(s: State, events: seq<Event>)
    requires s.running
    ensures Writes(Run(s, events).trace) == Writes(s.trace) + Sent(events)
    decreases |events|
  {
    if |events| > 0 {
      var t := Step(s, events[0]);
      StepWrites(s, events[0]);
      if Ends(events[0]) {
        StoppedStays(t, events[1..]);
      } else {
        RunWrites(t, events[1..]);
      }
    }
  }

  /** Once the loop has returned, no event changes anything. */
  lemma {:induction false} StoppedStays(s: State, events: seq<Event>)
    requires !s.running
    ensures Run(s, events) == s
    decreases |events|
  {
    if |events| > 0 {
      StoppedStays(Step(s, events[0]), events[1..]);
    }
  }

  /** The loop is still running exactly when no event so far ends it. */
  lemma {:induction false} RunningIff(s: State, events: seq<Event>)
    requires s.running
    ensures Run(s, events).running <==> forall i | 0 <= i < |events| :: !Ends(events[i])
    decreases |events|
  {
    if |events| > 0 {
      var t := Step(s, events[0]);
      if Ends(events[0]) {
        StoppedStays(t, events[1..]);
      } else {
        RunningIff(t, events[1..]);
        assert forall i | 1 <= i < |events| :: events[i] == events[1..][i - 1];
      }
    }
  }

  /** A trace the writer can produce: no channel is closed while it runs, both are closed
      (reconnect channel first) once it has returned, and every reader signal comes right
      after a call to `OnReconnect`, which comes right after the old connection was closed. */
  predicate WellOrdered(s: State) {
    && (s.running ==> forall i | 0 <= i < |s.trace| :: !s.trace[i].CloseChan?)
    && (!s.running ==> |s.trace| >= 2 && s.trace[|s.trace| - 2..] == ExitCloses)
    && (forall i | 0 <= i < |s.trace| && s.trace[i].SignalReader? ::
          2 <= i && s.trace[i - 1] == CallOnReconnect && s.trace[i - 2].CloseConn?)
  }

  lemma StepWellOrdered(s: State, e: Event)
    requires WellOrdered(s)
    ensures WellOrdered(Step(s, e))
  {
    if s.running {
      var t := Step(s, e);
      var n := |s.trace|;
      forall i | 0 <= i < |t.trace| && t.trace[i].SignalReader?
        ensures 2 <= i && t.trace[i - 1] == CallOnReconnect && t.trace[i - 2].CloseConn?
      {
        if i < n {
          assert s.trace[i] == t.trace[i];
          assert s.trace[i - 1] == t.trace[i - 1] && s.trace[i - 2] == t.trace[i - 2];
        }
      }
      if t.running {
        forall i | 0 <= i < |t.trace|
          ensures !t.trace[i].CloseChan?
        {
          if i < n {
            assert s.trace[i] == t.trace[i];
          }
        }
      }
    }
  }

  lemma {:induction false} RunWellOrdered(s: State, events: seq<Event>)
    requires WellOrdered(s)
    ensures WellOrdered(Run(s, events))
    decreases |events|
  {
    if |events| > 0 {
      StepWellOrdered(s, events[0]);
      RunWellOrdered(Step(s, events[0]), events[1..]);
    }
  }

  /** A failed reconnect ends the loop without signalling the reader; a successful one
      installs the new connection, which the next write uses. */
  lemma ReconnectOutcome(s: State, c: Option<ConnId>, m: Message)
    requires s.running
    ensures forall i | |s.trace| <= i < |Step(s, Reconnect(c, false)).trace| ::
      !Step(s, Reconnect(c, false)).trace[i].SignalReader?
    ensures !Step(s, Reconnect(c, false)).running
    ensures Step(Step(s, Reconnect(c, true)), Out(m)).trace[|s.trace| + 3] == WriteJson(c, m)
  {
  }

  /** `startWriter` itself: takes events until one ends the loop. */
  method StartWriter(conn: Option<ConnId>, events: seq<Event>) returns (s: State)
    ensures s == Run(Init(conn), events)
    ensures Writes(s.trace) == Sent(events)
    ensures WellOrdered(s)
    ensures s.running <==> forall i | 0 <= i < |events| :: !Ends(events[i])
  {
    s := Init(conn);
    var i := 0;
    while i < |events| && s.running
      invariant 0 <= i <= |events|
      invariant Run(s, events[i..]) == Run(Init(conn), events)
      invariant WellOrdered(s)
    {
      assert events[i..][0] == events[i] && events[i..][1..] == events[i + 1..];
      StepWellOrdered(s, events[i]);
      s := Step(s, events[i]);
      i := i + 1;
    }
    if !s.running {
      StoppedStays(s, events[i..]);
    } else {
      assert events[i..] == [];
    }
    RunWrites(Init(conn), events);
    RunningIff(Init(conn), events);
  }
}
