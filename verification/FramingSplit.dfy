/**
  Decoding does not depend on how TCP cuts the byte stream: up to and including the first `close()`
  the callbacks and replies are those of the whole stream handed over at once.
*/
module FramingSplit {
  import opened Bytes
  import opened Framing

  ghost predicate HasClose(events: seq<Event>) {
    exists i :: 0 <= i < |events| && events[i].CloseCalled?
  }

  /** The events up to and including the first `close()`, or all of them if there is none. */
  function UpToClose(events: seq<Event>): seq<Event> {
    if events == [] then []
    else if events[0].CloseCalled? then [events[0]]
    else [events[0]] + UpToClose(events[1..])
  }

  /** Between two frames of an open connection, with no input pending. */
  ghost predicate Idle(d: Decoder) {
    d.rx.status == Connect && !d.headerRead && d.wanted == 0 && d.input == []
  }

  /** What holds whenever `decode` is entered on an open connection. */
  ghost predicate Entry(d: Decoder) {
    d.rx.status == Connect && if d.headerRead then d.payloadLength > 0 else d.input != []
  }

  function Extended(d: Decoder, more: seq<byte>): Decoder {
    d.(input := d.input + more)
  }

  /** The activation only waits for more input. */
  ghost predicate Stalled(d: Decoder)
    requires Entry(d)
  {
    if d.headerRead then d.payloadLength > |d.input|
    else
      var (d1, outcome) := ReadHeader(d);
      outcome == Partial || (outcome == Complete && d1.payloadLength > |d1.input|)
  }

  lemma {:induction false} UpToCloseAppend(a: seq<Event>, b: seq<Event>)
    ensures HasClose(a) ==> UpToClose(a + b) == UpToClose(a)
    ensures !HasClose(a) ==> UpToClose(a + b) == a + UpToClose(b)
  {
    if a == [] {
      assert a + b == b;
    } else {
      assert (a + b)[1..] == a[1..] + b;
      UpToCloseAppend(a[1..], b);
      if HasClose(a) && !a[0].CloseCalled? {
        var i :| 0 <= i < |a| && a[i].CloseCalled?;
        assert a[1..][i - 1].CloseCalled?;
      }
      if HasClose(a[1..]) {
        var i :| 0 <= i < |a[1..]| && a[1..][i].CloseCalled?;
        assert a[i + 1].CloseCalled?;
      }
    }
  }

  lemma CloseInAppend(a: seq<Event>, b: seq<Event>)
    ensures HasClose(a + b) <==> HasClose(a) || HasClose(b)
  {
    if HasClose(a) {
      var i :| 0 <= i < |a| && a[i].CloseCalled?;
      assert (a + b)[i].CloseCalled?;
    }
    if HasClose(b) {
      var i :| 0 <= i < |b| && b[i].CloseCalled?;
      assert (a + b)[|a| + i].CloseCalled?;
    }
  }

  /** A header that could be read is read alike when more input follows. */
  lemma HeaderPrefix(d: Decoder, more: seq<byte>)
    requires d.input != [] && ReadHeader(d).1 != Partial
    ensures ReadHeader(Extended(d, more)) == (Extended(ReadHeader(d).0, more), ReadHeader(d).1)
  {
    var q := d.input;
    SlicePrefix(q, more, 0, 1);
    if ReadHeader(d).1 == Complete {
      HeaderFits(d);
      var size := LengthEnd(q[1]);
      SlicePrefix(q, more, 2, size);
      if |q| >= size + 4 {
        SlicePrefix(q, more, size, size + 4);
      }
    }
  }

  lemma HeaderFits(d: Decoder)
    requires d.input != [] && ReadHeader(d).1 == Complete
    ensures |d.input| >= 2 && |d.input| >= LengthEnd(d.input[1]) + if d.input[1] >= 128 then 4 else 0
  {}

  /**
    Un-reading restores the header exactly: starting again on a longer input, what the first
    attempt left in the fields makes no difference, and below `wanted` bytes nothing changes.
  */
  lemma HeaderRetry(d: Decoder, more: Chunk)
    requires !d.headerRead && d.input != [] && ReadHeader(d).1 == Partial
    ensures var d1 := ReadHeader(d).0;
      && d1.input == d.input && !d1.headerRead
      && ReadHeader(Extended(d1, more)) == ReadHeader(Extended(d, more))
      && (|d.input + more| < d1.wanted ==> ReadHeader(Extended(d, more)) == (Extended(d1, more), Partial))
  {
    var x := d.input + more;
    assert x[0] == d.input[0];
    if |d.input| >= 2 {
      assert x[1] == d.input[1];
      var size := LengthEnd(d.input[1]);
      if |d.input| >= size {
        assert x[2..size] == d.input[2..size];
      }
    }
  }

  lemma CloseCloses(rx: Receiver, code: nat)
    ensures HasClose(Close(rx, code).1)
  {
    var ev := Close(rx, code).1;
    assert ev[|ev| - 1] == CloseCalled(code);
  }

  /** While the connection is open, a `close()` shows in the status; otherwise the frame is done with. */
  lemma DispatchCloses(cb: Callbacks, rx: Receiver, fin: bool, opcode: nat, data: seq<byte>)
    requires rx.status == Connect
    ensures var h := Dispatch(cb, rx, fin, opcode, data);
      && (HasClose(h.events) <==> h.rx.status != Connect)
      && (h.rx.status == Connect ==> h.goesOn && h.cleared)
  {
    var rx1 := rx.(decodeBuf := rx.decodeBuf + data);
    CloseCloses(rx1, PROTOCOL_ERROR);
    CloseCloses(rx1, NORMAL_CLOSE);
    if opcode == 8 {
      CloseInAppend(Close(rx1, NORMAL_CLOSE).1, [TcpClose]);
    } else if opcode == 9 && fin && |data| >= 126 {
      CloseInAppend(if cb.ping then [Ping(data)] else [], Close(rx1, PROTOCOL_ERROR).1);
    }
  }

  lemma PayloadPrefix(cb: Callbacks, d: Decoder, more: Chunk)
    requires d.rx.status == Connect && d.payloadLength <= |d.input|
    ensures var a, b := TakePayload(cb, d), TakePayload(cb, Extended(d, more));
      && b.d == Extended(a.d, more) && b.events == a.events
      && (a.d.rx.status == Connect ==> b.again)
  {
    assert (d.input + more)[..d.payloadLength] == d.input[..d.payloadLength];
    assert (d.input + more)[d.payloadLength..] == d.input[d.payloadLength..] + more;
    DispatchCloses(cb, d.rx, d.fin, d.opcode, PayloadOf(d));
  }

  /**
    While the connection is open, a `close()` shows in the status. After a frame that does not
    close, `decode` is between frames, has consumed input and goes on as long as there is more.
  */
  lemma FrameDone(cb: Callbacks, d: Decoder)
    requires Entry(d) && !Stalled(d)
    ensures var a := DecodeOnce(cb, d);
      && (HasClose(a.events) <==> a.d.rx.status != Connect)
      && (a.d.rx.status == Connect ==>
        && !a.d.headerRead && a.d.wanted == 0
        && |a.d.input| < |d.input| && (a.again <==> a.d.input != []))
  {
    var d1 := if d.headerRead then d else ReadHeader(d).0;
    if !d.headerRead && ReadHeader(d).1 == BadRsv {
      CloseCloses(d1.rx, PROTOCOL_ERROR);
    } else {
      DispatchCloses(cb, d1.rx, d1.fin, d1.opcode, PayloadOf(d1));
    }
  }

  /** An activation that does more than wait does the same when more input follows. */
  lemma OncePrefix(cb: Callbacks, d: Decoder, more: Chunk)
    requires Entry(d) && !Stalled(d)
    ensures var a, b := DecodeOnce(cb, d), DecodeOnce(cb, Extended(d, more));
      && b.d == Extended(a.d, more) && b.events == a.events
      && (a.d.rx.status == Connect ==> b.again)
  {
    if d.headerRead {
      PayloadPrefix(cb, d, more);
    } else {
      HeaderPrefix(d, more);
      var (d1, outcome) := ReadHeader(d);
      if outcome == Complete {
        PayloadPrefix(cb, d1, more);
      }
    }
  }

  /** Waiting and then retrying comes to one activation on the longer input, `wanted` after a close aside. */
  lemma StallThenOnce(cb: Callbacks, d: Decoder, more: Chunk)
    requires Entry(d) && Stalled(d)
    ensures var b, x := DecodeOnce(cb, Extended(DecodeOnce(cb, d).d, more)), DecodeOnce(cb, Extended(d, more));
      && b.events == x.events && b.again == x.again && b.d == x.d.(wanted := b.d.wanted)
      && (b.d.rx.status == Connect ==> b == x)
  {
    if d.headerRead {
      RetryPayload(cb, d, more);
    } else if ReadHeader(d).1 == Partial {
      RetryHeader(cb, d, more);
    } else {
      HeaderPrefix(d, more);
      var d1 := ReadHeader(d).0;
      assert DecodeOnce(cb, Extended(d, more)) == TakePayload(cb, Extended(d1, more));
      RetryPayload(cb, d1, more);
    }
  }

  lemma RetryHeader(cb: Callbacks, d: Decoder, more: Chunk)
    requires Entry(d) && !d.headerRead && ReadHeader(d).1 == Partial
    ensures DecodeOnce(cb, Extended(DecodeOnce(cb, d).d, more)) == DecodeOnce(cb, Extended(d, more))
  {
    HeaderRetry(d, more);
  }

  lemma RetryPayload(cb: Callbacks, d: Decoder, more: Chunk)
    requires d.rx.status == Connect && d.payloadLength > |d.input|
    ensures var b, x := TakePayload(cb, Extended(TakePayload(cb, d).d, more)), TakePayload(cb, Extended(d, more));
      && b.events == x.events && b.again == x.again && b.d == x.d.(wanted := b.d.wanted)
      && (b.d.rx.status == Connect ==> b == x)
  {
    var e := Extended(d, more);
    if e.payloadLength <= |e.input| {
      DispatchCloses(cb, e.rx, e.fin, e.opcode, PayloadOf(e));
    }
  }

  /** The `wanted` gate is sound: below it, an activation would change nothing. */
  lemma GateIsSound(cb: Callbacks, d: Decoder, more: Chunk)
    requires Entry(d) && Stalled(d)
    requires |DecodeOnce(cb, d).d.input + more| < DecodeOnce(cb, d).d.wanted
    ensures var a := DecodeOnce(cb, d);
      DecodeOnce(cb, Extended(d, more)) == Activation(Extended(a.d, more), [], false)
  {
    if d.headerRead {
    } else if ReadHeader(d).1 == Partial {
      HeaderRetry(d, more);
    } else {
      HeaderPrefix(d, more);
    }
  }

  lemma StallShape(cb: Callbacks, d: Decoder)
    requires Entry(d) && Stalled(d)
    ensures var a := DecodeOnce(cb, d);
      && !a.again && a.events == [] && a.d.rx.status == Connect
      && (if a.d.headerRead then a.d.payloadLength > 0 && |a.d.input| <= |d.input| else a.d.input == d.input)
  {
    if !d.headerRead && ReadHeader(d).1 == Partial {
      HeaderRetry(d, [0]);
    }
  }

  /** Two runs that cannot be told apart up to the first `close()`, nor afterwards if there is none. */
  ghost predicate SameRun(o: Outcome, x: Outcome) {
    && UpToClose(o.events) == UpToClose(x.events)
    && (HasClose(o.events) <==> HasClose(x.events))
    && (HasClose(o.events) || o == x)
  }

  lemma SameRunAfter(first: Outcome, o: Outcome, x: Outcome)
    requires HasClose(first.events) || SameRun(o, x)
    ensures SameRun(first.Then(o), first.Then(x))
  {
    UpToCloseAppend(first.events, o.events);
    UpToCloseAppend(first.events, x.events);
    CloseInAppend(first.events, o.events);
    CloseInAppend(first.events, x.events);
  }

  lemma SameRunBefore(o: Outcome, x: Outcome, o': Outcome, x': Outcome)
    requires SameRun(o, x) && (o == x ==> o' == x')
    ensures SameRun(o.Then(o'), x.Then(x'))
  {
    UpToCloseAppend(o.events, o'.events);
    UpToCloseAppend(x.events, x'.events);
    CloseInAppend(o.events, o'.events);
    CloseInAppend(x.events, x'.events);
  }

  lemma ClosedSame(first: Outcome, next: Outcome)
    requires HasClose(first.events)
    ensures SameRun(first, first.Then(next)) && SameRun(first.Then(next), first)
  {
    UpToCloseAppend(first.events, next.events);
    CloseInAppend(first.events, next.events);
  }

  lemma ThenAssociates(a: Outcome, b: Outcome, c: Outcome)
    ensures a.Then(b).Then(c) == a.Then(b.Then(c))
  {
    assert a.events + b.events + c.events == a.events + (b.events + c.events);
  }

  /** What `Decode` does after its first activation. */
  function FirstOf(a: Activation): Outcome {
    Outcome(a.d, a.events, false)
  }

  /** Once the first activation closes, what later ones do is past the cut. */
  lemma ClosedFirst(cb: Callbacks, d: Decoder)
    requires (d.headerRead || d.input != []) && HasClose(DecodeOnce(cb, d).events)
    ensures SameRun(Decode(cb, d), FirstOf(DecodeOnce(cb, d)))
  {
    var a := DecodeOnce(cb, d);
    if a.again && a.d != d {
      ClosedSame(FirstOf(a), Decode(cb, a.d));
    }
  }

  /** The gate of `parse` never matters to a stalled decoder. */
  lemma GateIsTransparent(cb: Callbacks, d: Decoder, more: Chunk)
    requires Entry(d) && Stalled(d)
    ensures var a := DecodeOnce(cb, d);
      Parse(cb, a.d, more) == Decode(cb, Extended(a.d, more))
  {
    var a := DecodeOnce(cb, d);
    StallShape(cb, d);
    if |a.d.input + more| < a.d.wanted {
      GateIsSound(cb, d, more);
      StallThenOnce(cb, d, more);
    }
  }

  /** Waiting for input and parsing more of it comes to decoding the longer input at once. */
  lemma StallThenMore(cb: Callbacks, d: Decoder, more: Chunk)
    requires Entry(d) && Stalled(d)
    ensures SameRun(Parse(cb, DecodeOnce(cb, d).d, more), Decode(cb, Extended(d, more)))
  {
    StallShape(cb, d);
    StallThenOnce(cb, d, more);
    GateIsTransparent(cb, d, more);
    var e, x := Extended(DecodeOnce(cb, d).d, more), Extended(d, more);
    var b, c := DecodeOnce(cb, e), DecodeOnce(cb, x);
    assert Entry(e) && |e.input| <= |x.input|;
    if b.d.rx.status != Connect {
      OpenIffConnect(cb, e);
      ClosedFirst(cb, e);
      ClosedFirst(cb, x);
    } else if b.again {
      OpenIffConnect(cb, e);
    }
  }

  /** From an open connection, an activation closes iff it leaves the status `CONNECT`. */
  lemma OpenIffConnect(cb: Callbacks, d: Decoder)
    requires Entry(d)
    ensures var a := DecodeOnce(cb, d);
      && (HasClose(a.events) <==> a.d.rx.status != Connect)
      && (a.d.rx.status == Connect && a.again ==> |a.d.input| < |d.input|)
  {
    if Stalled(d) {
      StallShape(cb, d);
    } else {
      FrameDone(cb, d);
    }
  }

  /** Decoding a longer input is decoding the shorter one and then parsing the rest. */
  lemma {:induction false} DecodeThenMore(cb: Callbacks, d: Decoder, more: Chunk)
    requires Entry(d)
    ensures var o := Decode(cb, d);
      && SameRun(o.Then(Parse(cb, o.d, more)), Decode(cb, Extended(d, more)))
      && (HasClose(o.events) || !o.diverged)
    decreases |d.input|
  {
    hide DecodeOnce, Parse, Stalled, UpToClose;
    var a := DecodeOnce(cb, d);
    var x := Extended(d, more);
    if Stalled(d) {
      StallShape(cb, d);
      StallThenMore(cb, d, more);
      NoEventsFirst(a.d, Parse(cb, a.d, more));
    } else {
      OncePrefix(cb, d, more);
      FrameDone(cb, d);
      if a.d.rx.status != Connect {
        ClosedThenMore(cb, d, more);
      } else if a.again {
        var o := Decode(cb, a.d);
        DecodeThenMore(cb, a.d, more);
        ThenAssociates(FirstOf(a), o, Parse(cb, o.d, more));
        SameRunAfter(FirstOf(a), o.Then(Parse(cb, o.d, more)), Decode(cb, Extended(a.d, more)));
        CloseInAppend(a.events, o.events);
      } else {
        ParseUngated(cb, a.d, more);
      }
    }
  }

  lemma ParseUngated(cb: Callbacks, d: Decoder, more: Chunk)
    requires d.rx.status == Connect && d.wanted == 0
    ensures Parse(cb, d, more) == Decode(cb, Extended(d, more))
  {}

  lemma NoEventsFirst(d: Decoder, next: Outcome)
    ensures Outcome(d, [], false).Then(next) == next
  {}

  lemma ClosedThenMore(cb: Callbacks, d: Decoder, more: Chunk)
    requires Entry(d) && !Stalled(d) && HasClose(DecodeOnce(cb, d).events)
    ensures var o := Decode(cb, d);
      HasClose(o.events) && SameRun(o.Then(Parse(cb, o.d, more)), Decode(cb, Extended(d, more)))
  {
    var o := Decode(cb, d);
    OncePrefix(cb, d, more);
    ClosedFirst(cb, d);
    ClosedFirst(cb, Extended(d, more));
    ClosedSame(o, Parse(cb, o.d, more));
  }

  /** Two chunks in a row act like the two of them glued together. */
  lemma MergeTwo(cb: Callbacks, d: Decoder, c1: Chunk, c2: Chunk)
    requires Idle(d)
    ensures var o := Parse(cb, d, c1); SameRun(o.Then(Parse(cb, o.d, c2)), Parse(cb, d, c1 + c2))
  {
    hide Parse, Decode;
    IdleParse(cb, d, c1);
    IdleParse(cb, d, c1 + c2);
    DecodeThenMore(cb, Extended(d, c1), c2);
    assert Extended(Extended(d, c1), c2) == Extended(d, c1 + c2);
  }

  lemma IdleParse(cb: Callbacks, d: Decoder, c: Chunk)
    requires Idle(d)
    ensures Entry(Extended(d, c)) && Parse(cb, d, c) == Decode(cb, Extended(d, c))
  {}

  lemma ParseAllCons(cb: Callbacks, d: Decoder, c: Chunk, rest: seq<Chunk>)
    ensures var o := Parse(cb, d, c); ParseAll(cb, d, [c] + rest) == o.Then(ParseAll(cb, o.d, rest))
  {
    assert ([c] + rest)[1..] == rest;
  }

  lemma MergeFirstTwo(cb: Callbacks, d: Decoder, c1: Chunk, c2: Chunk, rest: seq<Chunk>)
    requires Idle(d)
    ensures SameRun(ParseAll(cb, d, [c1, c2] + rest), ParseAll(cb, d, [c1 + c2] + rest))
  {
    var first := Parse(cb, d, c1);
    var second := Parse(cb, first.d, c2);
    var both := Parse(cb, d, c1 + c2);
    MergeTwo(cb, d, c1, c2);
    ParseAllCons(cb, d, c1, [c2] + rest);
    ParseAllCons(cb, first.d, c2, rest);
    ParseAllCons(cb, d, c1 + c2, rest);
    assert [c1, c2] + rest == [c1] + ([c2] + rest);
    ThenAssociates(first, second, ParseAll(cb, second.d, rest));
    SameRunBefore(first.Then(second), both, ParseAll(cb, second.d, rest), ParseAll(cb, both.d, rest));
  }

  /**
    Split independence. For any byte stream and any cut of it into nonempty chunks, the events up
    to and including the first `close()` are those of the stream in one piece; if there is no
    `close()`, the decoder also ends in the same state, and the recursion of `decode` returned.
  */
  lemma {:induction false} SplitIndependence(cb: Callbacks, d: Decoder, chunks: seq<Chunk>)
    requires Idle(d) && chunks != []
    ensures Concat(chunks) != []
    ensures var o, x := ParseAll(cb, d, chunks), Parse(cb, d, Concat(chunks));
      && UpToClose(o.events) == UpToClose(x.events)
      && (HasClose(o.events) <==> HasClose(x.events))
      && (!HasClose(o.events) ==> o == x && !o.diverged)
    decreases |chunks|
  {
    var c := chunks[0];
    if |chunks| == 1 {
      assert chunks[1..] == [] && Concat(chunks) == c + [] == c;
      var first := Parse(cb, d, c);
      assert first.events + [] == first.events;
      DecodeThenMore(cb, Extended(d, c), [0]);
    } else {
      var rest := chunks[2..];
      assert chunks == [c, chunks[1]] + rest;
      MergeFirstTwo(cb, d, c, chunks[1], rest);
      ConcatAppend([c, chunks[1]], rest);
      ConcatAppend([c + chunks[1]], rest);
      assert Concat([c, chunks[1]]) == Concat([c + chunks[1]]);
      SplitIndependence(cb, d, [c + chunks[1]] + rest);
    }
  }
}
