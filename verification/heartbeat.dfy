/** The keep-alive loop: `StartHearthBeat` (websocket/hearthbeat.go) and `SendHearthBeats`
    (websocket.go) are the same loop over the two packages' `SendHeartBeat`. The ticker and
    the context are modelled as the sequence of events the `select` takes. */
module Heartbeat {
  import opened Base
  import opened Messages

  /** 49000 ms, the interval used when none is passed. */
  const DefaultInterval: Duration := 49 * Second

  /** The ticker period: the first of the optional durations, or the default. */
  function Interval(durations: seq<Duration>): (d: Duration)
    ensures |durations| == 0 ==> d == DefaultInterval
    ensures |durations| > 0 ==> d == durations[0]
  {
    if |durations| > 0 then durations[0] else 49000 * Millisecond
  }

  /** Only the first duration counts; the rest are ignored. */
  lemma IntervalIgnoresRest(d: Duration, rest: seq<Duration>, other: seq<Duration>)
    ensures Interval([d] + rest) == Interval([d] + other) == d
  {
  }

  /** What the `select` takes: a tick of the ticker or the context's cancellation. */
  datatype Signal = Ticked | Cancel

  /** `time.NewTicker` panics for a non-positive period; otherwise the loop sends `sent`
      and has returned iff `stopped`. */
  datatype Beats = Panicked | Beats(sent: seq<Message>, stopped: bool)

  /** The ticks taken before the first cancellation. */
  function Ticks(signals: seq<Signal>): nat
    decreases |signals|
  {
    if |signals| == 0 || signals[0] == Cancel then 0 else 1 + Ticks(signals[1..])
  }

  /** `n` heartbeats. */
  function Repeat(n: nat): (ms: seq<Message>)
    ensures |ms| == n && forall i | 0 <= i < n :: ms[i] == Heartbeat()
  {
    seq(n, _ => Heartbeat())
  }

  lemma {:induction false} TicksAppendTicked(signals: seq<Signal>)
    requires Cancel !in signals
    ensures Ticks(signals + [Ticked]) == Ticks(signals) + 1
    decreases |signals|
  {
    if |signals| == 0 {
      assert signals + [Ticked] == [Ticked];
    } else {
      assert (signals + [Ticked])[1..] == signals[1..] + [Ticked];
      TicksAppendTicked(signals[1..]);
    }
  }

  lemma {:induction false} TicksNoCancel(signals: seq<Signal>)
    requires Cancel !in signals
    ensures Ticks(signals) == |signals|
    decreases |signals|
  {
    if |signals| > 0 {
      TicksNoCancel(signals[1..]);
    }
  }

  /** Nothing after the first cancellation counts: one heartbeat per tick before it. */
  lemma {:induction false} CancelIsFinal(pre: seq<Signal>, post: seq<Signal>)
    requires Cancel !in pre
    ensures Ticks(pre + [Cancel] + post) == |pre|
    decreases |pre|
  {
    if |pre| == 0 {
      assert (pre + [Cancel] + post)[0] == Cancel;
    } else {
      assert (pre + [Cancel] + post)[1..] == pre[1..] + [Cancel] + post;
      CancelIsFinal(pre[1..], post);
    }
  }

  /** The loop itself. */
  method StartHearthBeat(durations: seq<Duration>, signals: seq<Signal>) returns (r: Beats)
    ensures r.Panicked? <==> Interval(durations) <= 0
    ensures r.Beats? ==> r.sent == Repeat(Ticks(signals)) && (r.stopped <==> Cancel in signals)
  {
    if Interval(durations) <= 0 {
      return Panicked;
    }
    var sent: seq<Message> := [];
    var i := 0;
    while i < |signals|
      invariant 0 <= i <= |signals|
      invariant Cancel !in signals[..i]
      invariant sent == Repeat(Ticks(signals[..i]))
    {
      if signals[i] == Cancel {
        CancelIsFinal(signals[..i], signals[i + 1..]);
        TicksNoCancel(signals[..i]);
        assert signals == signals[..i] + [Cancel] + signals[i + 1..];
        return Beats(sent, true);
      }
      TicksAppendTicked(signals[..i]);
      assert signals[..i + 1] == signals[..i] + [Ticked];
      sent := sent + [Heartbeat()];
      i := i + 1;
    }
    assert signals[..i] == signals;
    return Beats(sent, false);
  }
}
