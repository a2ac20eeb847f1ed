/**
  The two ends of a connection put together: what the decoder asks of the TCP connection drives the
  steps of `Output`, with completions of libuv anywhere between them, from the first frame to the
  disconnect that an answered close frame leads to.
*/
module Teardown {
  import opened Bytes
  import opened Framing
  import FramingFrames
  import Output

  // ---- What the decoder asks for ---------------------------------------------------------------

  /** How the decoder answers a close frame. */
  const GOODBYE: seq<Event> := [Sent(FramingFrames.CloseWire(NORMAL_CLOSE)), CloseCalled(NORMAL_CLOSE), TcpClose]

  /** The TCP connection is closed right behind the close frame and nothing follows, or it is not closed. */
  ghost predicate ClosesLast(events: seq<Event>, closed: bool) {
    if !closed then TcpClose !in events
    else exists before :: GoodbyeBehind(before, events)
  }

  ghost predicate GoodbyeBehind(before: seq<Event>, events: seq<Event>) {
    TcpClose !in before && events == before + GOODBYE
  }

  lemma {:induction false} ClosesLastBehind(first: seq<Event>, events: seq<Event>, closed: bool)
    requires TcpClose !in first && ClosesLast(events, closed)
    ensures ClosesLast(first + events, closed)
  {
    if closed {
      var before :| GoodbyeBehind(before, events);
      assert first + events == (first + before) + GOODBYE;
      assert GoodbyeBehind(first + before, first + events);
    }
  }

  lemma DispatchCloses(cb: Callbacks, rx: Receiver, fin: bool, opcode: nat, data: seq<byte>)
    requires rx.status == Connect || rx.status == Closing
    ensures var h := Dispatch(cb, rx, fin, opcode, data);
      if h.rx.status == Closed then h.events == GOODBYE && opcode == 8 && !h.cleared
      else TcpClose !in h.events && (h.rx.status == Connect || h.rx.status == Closing)
  {
    hide FramingFrames.CloseWire;
    FramingFrames.CloseIsWire(NORMAL_CLOSE);
    assert [] + [Sent(FramingFrames.CloseWire(NORMAL_CLOSE)), CloseCalled(NORMAL_CLOSE)] + [TcpClose] == GOODBYE;
  }

  lemma HeaderKeepsReceiver(d: Decoder)
    requires d.input != []
    ensures ReadHeader(d).0.rx == d.rx
  {
    hide FromBigEndian;
  }

  /** One activation: it closes the TCP connection as its last act, or goes on with one that is not closed. */
  lemma OnceCloses(cb: Callbacks, d: Decoder)
    requires (d.headerRead || d.input != []) && (d.rx.status == Connect || d.rx.status == Closing)
    ensures var a := DecodeOnce(cb, d);
      if a.d.rx.status == Closed then a.events == GOODBYE && a.d.headerRead && a.d.opcode == 8
      else TcpClose !in a.events && (a.d.rx.status == Connect || a.d.rx.status == Closing)
  {
    hide ReadHeader, Dispatch, PayloadOf;
    var d1 := if d.headerRead then d else ReadHeader(d).0;
    if !d.headerRead {
      HeaderKeepsReceiver(d);
    }
    if d1.payloadLength <= |d1.input| {
      DispatchCloses(cb, d1.rx, d1.fin, d1.opcode, PayloadOf(d1));
    }
  }

  /** With the header of a close frame kept, a closed connection passes over what is left of the input. */
  lemma {:induction false} KeptCloseIsQuiet(cb: Callbacks, d: Decoder)
    requires d.headerRead && d.opcode == 8 && d.rx.status == Closed
    ensures Decode(cb, d).events == [] && Decode(cb, d).d.rx.status == Closed
    decreases |d.input|
  {
    hide PayloadOf;
    DecodeUnfold(cb, d);
    var a := DecodeOnce(cb, d);
    if a.again && a.d != d {
      AgainDescends(cb, d);
      KeptCloseIsQuiet(cb, a.d);
    }
  }

  lemma {:induction false} DecodeCloses(cb: Callbacks, d: Decoder)
    requires (d.headerRead || d.input != []) && (d.rx.status == Connect || d.rx.status == Closing)
    ensures var o := Decode(cb, d);
      && ClosesLast(o.events, o.d.rx.status == Closed)
      && (o.d.rx.status == Connect || o.d.rx.status == Closing || o.d.rx.status == Closed)
    decreases |d.input|, d.headerRead, d.rx.status == Connect
  {
    hide DecodeOnce, ClosesLast;
    DecodeUnfold(cb, d);
    OnceCloses(cb, d);
    var a := DecodeOnce(cb, d);
    OneGoodbye(a.events, a.d.rx.status == Closed);
    if a.again && a.d != d {
      AgainDescends(cb, d);
      if a.d.rx.status == Closed {
        KeptCloseIsQuiet(cb, a.d);
        assert a.events + [] == a.events;
      } else {
        DecodeCloses(cb, a.d);
        ClosesLastBehind(a.events, Decode(cb, a.d).events, Decode(cb, a.d).d.rx.status == Closed);
      }
    }
  }

  lemma OneGoodbye(events: seq<Event>, closed: bool)
    requires if closed then events == GOODBYE else TcpClose !in events
    ensures ClosesLast(events, closed)
  {
    if closed {
      assert events == [] + GOODBYE;
      assert GoodbyeBehind([], events);
    }
  }

  /** Once closed, `parse` does nothing any more. */
  lemma {:induction false} ClosedIsQuiet(cb: Callbacks, d: Decoder, chunks: seq<Chunk>)
    requires d.rx.status == Closed
    ensures ParseAll(cb, d, chunks).events == [] && ParseAll(cb, d, chunks).d.rx.status == Closed
    decreases |chunks|
  {
    hide Decode;
    if chunks != [] {
      ClosedIsQuiet(cb, Parse(cb, d, chunks[0]).d, chunks[1..]);
    }
  }

  /**
    Over any reads whatever, from an open connection in any state of the decoder: the TCP connection
    is closed at most once, right behind the close frame with the normal code, nothing is sent or
    called after that, and it is closed iff the decoder ends up closed.
  */
  lemma {:induction false} ClosedOnceAndLast(cb: Callbacks, d: Decoder, chunks: seq<Chunk>)
    requires d.rx.status == Connect || d.rx.status == Closing
    ensures var o := ParseAll(cb, d, chunks); ClosesLast(o.events, o.d.rx.status == Closed)
    decreases |chunks|
  {
    hide Decode, ClosesLast;
    if chunks == [] {
      OneGoodbye([], false);
    } else {
      var first := Parse(cb, d, chunks[0]);
      if |d.input + chunks[0]| < d.wanted {
        OneGoodbye([], false);
      } else {
        DecodeCloses(cb, d.(input := d.input + chunks[0]));
      }
      var rest := ParseAll(cb, first.d, chunks[1..]);
      if first.d.rx.status == Closed {
        ClosedIsQuiet(cb, first.d, chunks[1..]);
        assert first.events + [] == first.events;
      } else {
        ClosedOnceAndLast(cb, first.d, chunks[1..]);
        NotClosed(first.events);
        ClosesLastBehind(first.events, rest.events, rest.d.rx.status == Closed);
      }
    }
  }

  lemma NotClosed(events: seq<Event>)
    requires ClosesLast(events, false)
    ensures TcpClose !in events
  {}

  // ---- What that does to the TCP connection ----------------------------------------------------

  /** The steps of the TCP connection that the decoder takes, in their order. */
  function Driven(events: seq<Event>): seq<Output.Step> {
    if events == [] then []
    else
      Driven(events[..|events| - 1]) +
      match events[|events| - 1]
      case Sent(bytes) => [Output.SendStep(bytes)]
      case TcpClose => [Output.CloseStep]
      case _ => []
  }

  /** The steps that are no completions. */
  function Asked(steps: seq<Output.Step>): seq<Output.Step> {
    if steps == [] then []
    else (if steps[0] == Output.CompleteStep then [] else [steps[0]]) + Asked(steps[1..])
  }

  /** libuv completes only writes that were handed over. */
  ghost predicate WritesComplete(r: Output.Run, steps: seq<Output.Step>)
    decreases |steps|
  {
    steps != [] ==>
      && (steps[0] == Output.CompleteStep ==> r.c.pending != [])
      && (Output.Enabled(r.c, steps[0]) ==> WritesComplete(Output.Advance(r, steps[0]), steps[1..]))
  }

  /** One-buffer sends, and a close request as the last step if there is one. */
  ghost predicate SendsThenClose(steps: seq<Output.Step>) {
    forall i :: 0 <= i < |steps| ==> steps[i].SendStep? || (steps[i] == Output.CloseStep && i == |steps| - 1)
  }

  /** The bytes that steps send. */
  function Flow(steps: seq<Output.Step>): seq<byte> {
    if steps == [] then [] else Output.SentBy(steps[0]) + Flow(steps[1..])
  }

  lemma {:induction false} DrivenSends(events: seq<Event>)
    requires TcpClose !in events
    ensures forall s :: s in Driven(events) ==> s.SendStep?
  {
    if events != [] {
      DrivenSends(events[..|events| - 1]);
    }
  }

  lemma DrivenGoodbye(before: seq<Event>)
    ensures Driven(before + GOODBYE) == Driven(before) + [Output.SendStep(FramingFrames.CloseWire(NORMAL_CLOSE)), Output.CloseStep]
  {
    var e1, e2, e3 := before + GOODBYE[..1], before + GOODBYE[..2], before + GOODBYE;
    assert e3[..|e3| - 1] == e2 && e2[..|e2| - 1] == e1 && e1[..|e1| - 1] == before;
    assert Driven(e1) == Driven(before) + [Output.SendStep(FramingFrames.CloseWire(NORMAL_CLOSE))];
    assert Driven(e2) == Driven(e1) + [];
  }

  lemma DrivenInOrder(events: seq<Event>, closed: bool)
    requires ClosesLast(events, closed)
    ensures SendsThenClose(Driven(events))
    ensures closed <==> Output.CloseStep in Driven(events)
    ensures closed ==> exists sends :: SendsGoodbye(sends, Driven(events))
  {
    if closed {
      var before :| GoodbyeBehind(before, events);
      DrivenSends(before);
      DrivenGoodbye(before);
      assert SendsGoodbye(Driven(before), Driven(events));
    } else {
      DrivenSends(events);
    }
  }

  /** The last thing sent is the close frame, right before the close request. */
  ghost predicate SendsGoodbye(sends: seq<Output.Step>, steps: seq<Output.Step>) {
    steps == sends + [Output.SendStep(FramingFrames.CloseWire(NORMAL_CLOSE)), Output.CloseStep]
  }

  /** Steps in that order are all allowed, wherever the completions come, and nothing is sent too late. */
  lemma {:induction false} InOrderIsEnabled(r: Output.Run, steps: seq<Output.Step>) returns (r1: Output.Run)
    requires Output.DrainInvariant(r) && r.after == [] && WritesComplete(r, steps)
    requires SendsThenClose(Asked(steps)) && (r.closed ==> Asked(steps) == [])
    ensures Output.Reaches(r, steps, r1, Output.OneBufferOneClose) && r1.after == [] && r1.before == r.before + Flow(Asked(steps))
    ensures r1.closed <==> r.closed || Output.CloseStep in Asked(steps)
    decreases |steps|
  {
    hide Output.DrainInvariant, Output.Enabled, Output.Advance, Output.OneBufferOneClose, SendsThenClose, Output.SentBy;
    if steps == [] {
      r1 := r;
      assert Flow([]) == [] && r.before + [] == r.before;
    } else {
      var s, asked, rest := steps[0], Asked(steps), Asked(steps[1..]);
      assert asked == (if s == Output.CompleteStep then [] else [s]) + rest;
      StepAllowed(r, s, asked);
      StepTaken(r, s, asked, rest);
      Output.DrainStep(r, s);
      r1 := InOrderIsEnabled(Output.Advance(r, s), steps[1..]);
    }
  }

  /** What one step adds, and what is left to ask for behind it. */
  lemma StepTaken(r: Output.Run, s: Output.Step, asked: seq<Output.Step>, rest: seq<Output.Step>)
    requires Output.Enabled(r.c, s) && SendsThenClose(asked) && r.after == [] && (r.closed ==> asked == [])
    requires asked == (if s == Output.CompleteStep then [] else [s]) + rest
    ensures SendsThenClose(rest)
    ensures var r1 := Output.Advance(r, s);
      && r1.after == [] && r1.before + Flow(rest) == r.before + Flow(asked)
      && (r1.closed ==> rest == []) && (r1.closed || Output.CloseStep in rest <==> r.closed || Output.CloseStep in asked)
  {
    hide Output.Apply, Output.Enabled;
    if s == Output.CompleteStep {
      assert asked == rest;
      assert r.before + [] == r.before;
    } else {
      assert asked[1..] == rest;
      assert forall i :: 0 <= i < |rest| ==> rest[i] == asked[i + 1];
      assert r.before + Output.SentBy(s) + Flow(rest) == r.before + (Output.SentBy(s) + Flow(rest));
    }
  }

  lemma StepAllowed(r: Output.Run, s: Output.Step, asked: seq<Output.Step>)
    requires Output.DrainInvariant(r) && (r.closed ==> asked == [])
    requires if s == Output.CompleteStep then r.c.pending != [] else asked != [] && s == asked[0] && SendsThenClose(asked)
    ensures Output.Enabled(r.c, s) && Output.OneBufferOneClose(r, s)
  {}

  lemma {:induction false} FlowAppend(a: seq<Output.Step>, b: seq<Output.Step>)
    ensures Flow(a + b) == Flow(a) + Flow(b)
  {
    if a == [] {
      assert a + b == b;
    } else {
      assert (a + b)[1..] == a[1..] + b;
      FlowAppend(a[1..], b);
    }
  }

  /** An open connection, whatever it has sent by the one-buffer send and whichever of that is still outstanding. */
  ghost predicate Open(r: Output.Run) {
    Output.DrainInvariant(r) && !r.closed
  }

  /** Sends by the one-buffer send, and completions. */
  predicate StaysOpen(r: Output.Run, s: Output.Step) {
    s.SendStep? || s.CompleteStep?
  }

  /**
    A connection that has sent, be it the answer to the handshake or messages of the application behind
    it, and has completed any of its writes, is such a connection, and all that it has sent counts.
  */
  lemma {:induction false} SentIsOpen(r: Output.Run, steps: seq<Output.Step>, r1: Output.Run)
    requires Open(r) && Output.Reaches(r, steps, r1, StaysOpen)
    ensures Open(r1) && r1.before == r.before + Flow(Asked(steps))
    decreases |steps|
  {
    hide Open, Output.Enabled, Output.Advance, Output.SentBy, Asked, Flow;
    if steps == [] {
      NothingAsked();
      assert r.before + [] == r.before;
    } else {
      var s, rest := steps[0], Flow(Asked(steps[1..]));
      OpenStep(r, s);
      FlowAsked(steps);
      SentIsOpen(Output.Advance(r, s), steps[1..], r1);
      assert r.before + Output.SentBy(s) + rest == r.before + (Output.SentBy(s) + rest);
    }
  }

  lemma OpenStep(r: Output.Run, s: Output.Step)
    requires Open(r) && Output.Enabled(r.c, s) && StaysOpen(r, s)
    ensures Open(Output.Advance(r, s)) && Output.Advance(r, s).before == r.before + Output.SentBy(s)
  {
    hide Output.DrainInvariant, Output.Apply;
    Output.DrainStep(r, s);
  }

  lemma NothingAsked()
    ensures Flow(Asked([])) == []
  {}

  lemma FlowAsked(steps: seq<Output.Step>)
    requires steps != []
    ensures Flow(Asked(steps)) == Output.SentBy(steps[0]) + Flow(Asked(steps[1..]))
  {
    var rest := Asked(steps[1..]);
    if steps[0] == Output.CompleteStep {
      assert Asked(steps) == rest && [] + Flow(rest) == Flow(rest);
    } else {
      assert Asked(steps)[1..] == rest;
    }
  }

  lemma StartIsOpen(r: Output.Run)
    requires Output.Start(r)
    ensures Open(r) && r.before == []
  {}

  /** So is one right behind the answer to its handshake, with that write outstanding or completed. */
  lemma AnsweredIsOpen(r: Output.Run, answer: seq<byte>)
    requires Output.Start(r)
    ensures Output.Enabled(r.c, Output.SendStep(answer))
    ensures var r1 := Output.Advance(r, Output.SendStep(answer));
      && Open(r1) && r1.before == answer && Output.Enabled(r1.c, Output.CompleteStep)
      && var r2 := Output.Advance(r1, Output.CompleteStep); Open(r2) && r2.before == answer && r2.c.done == answer
  {
    hide Output.DrainInvariant;
    StartIsOpen(r);
    var r1 := Output.Advance(r, Output.SendStep(answer));
    Output.DrainStep(r, Output.SendStep(answer));
    Output.DrainStep(r1, Output.CompleteStep);
    assert [] + answer == answer && answer + [] == answer;
  }

  /**
    The teardown. Whatever is read, what the decoder asks of the TCP connection is allowed when it is
    asked, wherever libuv completes the writes in between; the assertions of `send` and `handleClose`
    hold, no byte is sent too late to be written, and once the connection is disconnected all that was
    sent, before the frames and in reply to them, has been written, the close frame last.
  */
  lemma TeardownDrains(cb: Callbacks, d: Decoder, chunks: seq<Chunk>, r: Output.Run, steps: seq<Output.Step>)
      returns (r1: Output.Run)
    requires (d.rx.status == Connect || d.rx.status == Closing) && Open(r)
    requires Asked(steps) <= Driven(ParseAll(cb, d, chunks).events) && WritesComplete(r, steps)
    ensures Output.Reaches(r, steps, r1, Output.OneBufferOneClose) && r1.after == [] && r1.before == r.before + Flow(Asked(steps))
    ensures r1.c.bytesWritten == |r1.c.done| && |r1.c.pending| <= 1
    ensures r1.closed && r1.c.state != Output.Disconnected ==> r1.c.pending != [] && r1.completions < 2
    ensures r1.c.state == Output.Disconnected ==>
      && r1.c.done == r.before + Flow(Asked(steps)) && r1.c.closes == 1
      && Asked(steps) == Driven(ParseAll(cb, d, chunks).events)
      && exists before :: r1.c.done == before + FramingFrames.CloseWire(NORMAL_CLOSE)
  {
    hide ParseAll, ClosesLast, Output.Reaches, Output.DrainInvariant;
    var o := ParseAll(cb, d, chunks);
    ClosedOnceAndLast(cb, d, chunks);
    var all := Driven(o.events);
    DrivenInOrder(o.events, o.d.rx.status == Closed);
    OpenSoFar(r);
    r1 := InOrderIsEnabled(r, steps);
    Output.DrainRun(r, steps, r1);
    Drained(r1);
    if r1.c.state == Output.Disconnected {
      WholeOf(Asked(steps), all);
      var sends :| SendsGoodbye(sends, all);
      GoodbyeFlow(sends, all);
      assert r.before + (Flow(sends) + FramingFrames.CloseWire(NORMAL_CLOSE)) == (r.before + Flow(sends)) + FramingFrames.CloseWire(NORMAL_CLOSE);
    }
  }

  lemma OpenSoFar(r: Output.Run)
    requires Open(r)
    ensures Output.DrainInvariant(r) && r.after == [] && !r.closed
  {}

  /** What the invariant says of the connection. */
  lemma Drained(r: Output.Run)
    requires Output.DrainInvariant(r)
    ensures r.c.bytesWritten == |r.c.done| && |r.c.pending| <= 1
    ensures r.c.state == Output.Disconnected ==> r.closed && r.c.done == r.before && r.c.closes == 1
    ensures r.closed && r.c.state != Output.Disconnected ==> r.c.pending != [] && r.completions < 2
  {}

  lemma WholeOf(steps: seq<Output.Step>, all: seq<Output.Step>)
    requires steps <= all && SendsThenClose(all) && Output.CloseStep in steps
    ensures steps == all
  {
    var i :| 0 <= i < |steps| && steps[i] == Output.CloseStep;
    assert all[i] == Output.CloseStep;
  }

  lemma GoodbyeFlow(sends: seq<Output.Step>, steps: seq<Output.Step>)
    requires SendsGoodbye(sends, steps)
    ensures Flow(steps) == Flow(sends) + FramingFrames.CloseWire(NORMAL_CLOSE)
  {
    var last := [Output.SendStep(FramingFrames.CloseWire(NORMAL_CLOSE)), Output.CloseStep];
    FlowAppend(sends, last);
    assert last[1..] == [Output.CloseStep] && [Output.CloseStep][1..] == [];
    assert Flow([Output.CloseStep]) == [] + Flow([]) == [];
    assert FramingFrames.CloseWire(NORMAL_CLOSE) + [] == FramingFrames.CloseWire(NORMAL_CLOSE);
  }
}
