/** The loop that reads frames off the websocket and hands the decoded messages to
    the `Message` channel. Two revisions exist: `startReceiver` in websocket.go
    (which also tracks `isConnected`) and `startReader` in websocket/reader.go.

    The frames the connection yields are the input sequence `frames`; the loop is
    modelled as a fold over it that stops at the first read it returns on. */
module Inbound {
  import opened Base
  import opened Json
  import opened Messages

  /** The error `conn.ReadMessage()` returns: a `*websocket.CloseError` (with its close
      code) or anything else. */
  datatype ReadError = CloseError(code: int) | OtherError

  /** One result of `conn.ReadMessage()`: a text frame, a close frame, any other frame
      type, or an error. */
  datatype Read = Text(raw: string) | CloseFrame | Other(raw: string) | Failed(err: ReadError)

  datatype Revision =
    | Receiver   // websocket.go, `startReceiver`
    | Reader     // websocket/reader.go, `startReader`

  /** The two channels the loop's deferred calls close. */
  datatype Chan = MessageChan | DoneChan

  /** The loop returns on any read error; only the receiver also returns on a close frame
      (the reader logs it like any unknown frame and carries on). */
  predicate Stops(rev: Revision, r: Read) {
    r.Failed? || (rev == Receiver && r.CloseFrame?)
  }

  /** A text frame as delivered: decoded, then given `MessageBytes` when `Message` is set;
      `None` when decoding fails and the frame is dropped. */
  function Parsed(raw: string, lib: JsonLib): (r: Option<Message>)
    ensures r.Some? <==> Unmarshal(raw, lib).Some?
    ensures r.Some? ==> BytesMirrorMessage(r.value)
    ensures r.Some? ==> r.value.(messageBytes := None) == Unmarshal(raw, lib).value
  {
    match Unmarshal(raw, lib)
    case None => None
    case Some(m) => Some(WithBytes(m))
  }

  /** What one non-stopping read sends on `Message`. */
  function Step(r: Read, lib: JsonLib): (out: seq<Message>)
    ensures |out| <= 1
    ensures |out| == 1 <==> r.Text? && Parsed(r.raw, lib).Some?
  {
    if r.Text? then
      match Parsed(r.raw, lib)
      case Some(m) => [m]
      case None => []
    else []
  }

  /** The message a decodable text frame sends is the decoded one, with `MessageBytes` set
      from `Message`. */
  lemma StepDeliversDecoded(r: Read, lib: JsonLib)
    requires r.Text? && Unmarshal(r.raw, lib).Some?
    ensures Step(r, lib) == [WithBytes(Unmarshal(r.raw, lib).value)]
  {
  }

  /** The messages a run of non-stopping frames sends, in order. */
  function Deliver(frames: seq<Read>, lib: JsonLib): seq<Message>
    decreases |frames|
  {
    if |frames| == 0 then [] else Step(frames[0], lib) + Deliver(frames[1..], lib)
  }

  /** The index of the read the loop returns on, or `|frames|` when it returns on none. */
  function FirstStop(rev: Revision, frames: seq<Read>): (k: nat)
    ensures k <= |frames|
    ensures forall j | 0 <= j < k :: !Stops(rev, frames[j])
    ensures k < |frames| ==> Stops(rev, frames[k])
    decreases |frames|
  {
    if |frames| == 0 || Stops(rev, frames[0]) then 0 else 1 + FirstStop(rev, frames[1..])
  }

  /** Everything sent on `Message` while the loop consumes `frames`. */
  function Delivered(rev: Revision, frames: seq<Read>, lib: JsonLib): (out: seq<Message>)
    ensures forall m | m in out :: BytesMirrorMessage(m)
  {
    DeliveredMirror(frames[..FirstStop(rev, frames)], lib);
    Deliver(frames[..FirstStop(rev, frames)], lib)
  }

  /** The receiver's `isConnected` once it has consumed `frames`, starting from `connected`:
      a close error or a close frame clears it, any other read error sets it (the flag is
      assigned `!ok` where `ok` says the error is a close error). The reader keeps no flag. */
  function FinalConnected(rev: Revision, frames: seq<Read>, connected: bool): (r: bool)
    ensures rev == Reader ==> r == connected
    ensures (forall i | 0 <= i < |frames| :: !frames[i].Failed? && !frames[i].CloseFrame?) ==> r == connected
  {
    var k := FirstStop(rev, frames);
    if rev == Reader || k == |frames| then connected
    else match frames[k]
      case Failed(CloseError(_)) => false
      case Failed(OtherError) => true
      case _ => false
  }

  /** The order in which the deferred calls close the two channels: the receiver defers two
      separate closes, which run last-in first-out; the reader closes both in one deferred
      function, done channel first. */
  function CloseOrder(rev: Revision): (order: seq<Chan>)
    ensures |order| == 2 && order[0] != order[1]
  {
    match rev
    case Receiver => [MessageChan, DoneChan]
    case Reader => [DoneChan, MessageChan]
  }

  /** The observable result of running the loop on a finite sequence of frames. */
  datatype Run = Run(delivered: seq<Message>, stopped: bool, connected: bool, closed: seq<Chan>)

  /** The loop itself, read by read. */
  method ReadLoop(rev: Revision, frames: seq<Read>, lib: JsonLib, connected0: bool) returns (run: Run)
    ensures run.delivered == Delivered(rev, frames, lib)
    ensures run.stopped <==> FirstStop(rev, frames) < |frames|
    ensures run.closed == (if run.stopped then CloseOrder(rev) else [])
    ensures run.connected == FinalConnected(rev, frames, connected0)
  {
    var delivered: seq<Message> := [];
    var i := 0;
    while i < |frames|
      invariant 0 <= i <= FirstStop(rev, frames)
      invariant delivered == Deliver(frames[..i], lib)
    {
      var r := frames[i];
      if r.Failed? {
        var connected := if rev == Receiver then !r.err.CloseError? else connected0;
        return Run(delivered, true, connected, CloseOrder(rev));
      }
      if rev == Receiver && r.CloseFrame? {
        return Run(delivered, true, false, CloseOrder(rev));
      }
      if r.Text? {
        match Parsed(r.raw, lib)
        case Some(m) => delivered := delivered + [m];
        case None =>
      }
      DeliverAppend(frames[..i], [r], lib);
      assert frames[..i + 1] == frames[..i] + [r];
      i := i + 1;
    }
    assert frames[..i] == frames;
    return Run(delivered, false, connected0, []);
  }

  lemma {:induction false} DeliverAppend(a: seq<Read>, b: seq<Read>, lib: JsonLib)
    ensures Deliver(a + b, lib) == Deliver(a, lib) + Deliver(b, lib)
    decreases |a|
  {
    if |a| == 0 {
      assert a + b == b;
    } else {
      assert (a + b)[0] == a[0] && (a + b)[1..] == a[1..] + b;
      DeliverAppend(a[1..], b, lib);
    }
  }

  /** Every delivered message carries `MessageBytes` exactly when its `Message` is set. */
  lemma {:induction false} DeliveredMirror(frames: seq<Read>, lib: JsonLib)
    ensures forall m | m in Deliver(frames, lib) :: BytesMirrorMessage(m)
    decreases |frames|
  {
    if |frames| > 0 {
      DeliveredMirror(frames[1..], lib);
    }
  }

  /** Every delivered message is the decoding of a text frame read before the stop, and
      every text frame before the stop that decodes is delivered. */
  lemma {:induction false} DeliveredExactly(frames: seq<Read>, lib: JsonLib)
    ensures forall m | m in Deliver(frames, lib) ::
      exists i | 0 <= i < |frames| :: frames[i].Text? && Parsed(frames[i].raw, lib) == Some(m)
    ensures forall i | 0 <= i < |frames| && frames[i].Text? && Parsed(frames[i].raw, lib).Some? ::
      Parsed(frames[i].raw, lib).value in Deliver(frames, lib)
    decreases |frames|
  {
    if |frames| > 0 {
      DeliveredExactly(frames[1..], lib);
      var head := Step(frames[0], lib);
      forall m | m in Deliver(frames, lib)
        ensures exists i | 0 <= i < |frames| :: frames[i].Text? && Parsed(frames[i].raw, lib) == Some(m)
      {
        if m in head {
          assert frames[0].Text? && Parsed(frames[0].raw, lib) == Some(m);
        } else {
          var i :| 0 <= i < |frames[1..]| && frames[1..][i].Text? && Parsed(frames[1..][i].raw, lib) == Some(m);
          assert frames[i + 1] == frames[1..][i];
        }
      }
      forall i | 0 <= i < |frames| && frames[i].Text? && Parsed(frames[i].raw, lib).Some?
        ensures Parsed(frames[i].raw, lib).value in Deliver(frames, lib)
      {
        if i > 0 {
          assert frames[1..][i - 1] == frames[i];
        }
      }
    }
  }

  /** Nothing read after the stopping read is delivered, whatever it is. */
  lemma NothingAfterStop(rev: Revision, pre: seq<Read>, r: Read, post: seq<Read>, lib: JsonLib)
    requires forall j | 0 <= j < |pre| :: !Stops(rev, pre[j])
    requires Stops(rev, r)
    ensures FirstStop(rev, pre + [r] + post) == |pre|
    ensures Delivered(rev, pre + [r] + post, lib) == Deliver(pre, lib)
  {
    var s := pre + [r] + post;
    var k := FirstStop(rev, s);
    assert s[|pre|] == r;
    assert s[..|pre|] == pre;
  }

  /** A text frame that does not decode is dropped and the loop carries on. */
  lemma MalformedDropped(rev: Revision, raw: string, rest: seq<Read>, lib: JsonLib)
    requires Unmarshal(raw, lib).None?
    ensures Delivered(rev, [Text(raw)] + rest, lib) == Delivered(rev, rest, lib)
  {
    var s := [Text(raw)] + rest;
    assert s[1..] == rest;
    assert s[..FirstStop(rev, s)][1..] == rest[..FirstStop(rev, rest)];
  }

  /** Frames of another type are ignored by both revisions, and so is a close frame by the reader. */
  lemma NonTextIgnored(rev: Revision, r: Read, rest: seq<Read>, lib: JsonLib)
    requires r.Other? || (rev == Reader && r.CloseFrame?)
    ensures Delivered(rev, [r] + rest, lib) == Delivered(rev, rest, lib)
    ensures FinalConnected(rev, [r] + rest, true) == FinalConnected(rev, rest, true)
  {
    var s := [r] + rest;
    assert s[1..] == rest;
    assert s[..FirstStop(rev, s)][1..] == rest[..FirstStop(rev, rest)];
  }

  /** A close frame ends the receiver with nothing more delivered and `isConnected` false,
      while the reader frames on. */
  lemma CloseFrameRevisions(rest: seq<Read>, lib: JsonLib, connected: bool)
    ensures Delivered(Receiver, [CloseFrame] + rest, lib) == []
    ensures !FinalConnected(Receiver, [CloseFrame] + rest, connected)
    ensures Delivered(Reader, [CloseFrame] + rest, lib) == Delivered(Reader, rest, lib)
  {
    NonTextIgnored(Reader, CloseFrame, rest, lib);
  }

  /** After the receiver returns on a read error, `isConnected` is false for a close error
      and true for any other error. */
  lemma ConnectedAfterError(pre: seq<Read>, e: ReadError, post: seq<Read>, connected: bool)
    requires forall j | 0 <= j < |pre| :: !Stops(Receiver, pre[j])
    ensures FinalConnected(Receiver, pre + [Failed(e)] + post, connected) == !e.CloseError?
  {
    var s := pre + [Failed(e)] + post;
    var k := FirstStop(Receiver, s);
    assert s[|pre|] == Failed(e);
  }
}
