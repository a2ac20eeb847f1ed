/**
  From the handshake into the frames: `parse` hands one read either to the HTTP parser or to the frame
  decoder, never to both, so frame bytes that arrive with the handshake wait for a further read.
*/
module Handover {
  import opened Bytes
  import opened HttpTypes
  import opened HttpStep
  import opened HttpRun
  import opened HttpHead
  import opened HttpRequest
  import opened Handshake
  import C = HandshakeCases
  import F = Framing
  import S = FramingSplit
  import Q = FramingSilence
  import W = FramingFrames

  /** A decoder as the connection is created with it. */
  ghost predicate Unopened(d: F.Decoder) {
    && d.rx.status == F.Initial && !d.headerRead && d.wanted == 0 && d.input == []
    && d.rx.fragmentedOpcode == 0 && d.rx.decodeBuf == [] && d.rx.output == []
  }

  /** Some answer switched protocols, which is what sets the status. */
  predicate Switched(answers: seq<Answer>) {
    exists i :: 0 <= i < |answers| && answers[i].SwitchingProtocols?
  }

  /**
    `parse` on the first read, `calls` being the callbacks that it makes: the parser takes its part of
    the bytes, and the status is what the answers to the headers make it. Nothing else of the decoder
    changes.
  */
  function FirstRead(d: F.Decoder, data: seq<byte>, calls: seq<Event>): F.Decoder
    requires Good(INITIAL) && !Over(Live(INITIAL, [], 0), data).Failed?
    requires EmitAll([], calls) == Over(Live(INITIAL, [], 0), data).trace
  {
    var r := Over(Live(INITIAL, [], 0), data);
    var left := if r.n <= |data| then data[r.n..] else [];
    d.(input := left, rx := d.rx.(status := if Switched(Answers(calls)) then F.Connect else d.rx.status))
  }

  /** What frames on an open connection bring about when all of them are decoded. */
  function Decoded(cb: F.Callbacks, d: F.Decoder, frames: seq<byte>): F.Outcome {
    if frames == [] then F.Outcome(d, [], false) else F.Parse(cb, d, frames)
  }

  /** A request that is accepted and without a body. */
  predicate Handshakes(r: Request) {
    && LegalRequest(r) && |Wire(r)| <= MAX_HEADER_SIZE && AnswerTo(r).SwitchingProtocols?
    && !AnnouncesBody(r)
  }

  /** The first read as it is when the request comes in it, and `more` behind it. */
  lemma HeadRead(r: Request, more: seq<byte>)
    requires Handshakes(r)
    ensures Good(INITIAL)
    ensures var run := Over(Live(INITIAL, [], 0), Wire(r) + more);
      !run.Failed? && run.n == |Wire(r)| && EmitAll([], AllCalls(r, true)) == run.trace && Switched(Answers(AllCalls(r, true)))
  {
    hide Good, LegalTarget, AnswerTo, Answers, AllCalls, Wire, Over, AnnouncesBody, EmitAll, Switches;
    HandoverIff(r, more);
    assert [AnswerTo(r)][0].SwitchingProtocols?;
  }

  /** Behind the handshake the decoder is open, with the rest of the read in its buffer and untouched. */
  lemma OpenedBy(d: F.Decoder, r: Request, more: seq<byte>)
    requires Unopened(d) && Handshakes(r)
    ensures Opened(d, r, more) == d.(input := more, rx := d.rx.(status := F.Connect))
  {
    hide Good, Answers, AllCalls, Wire, Over, EmitAll, Handshakes;
    HeadRead(r, more);
    LegalHandshake(r);
    assert (Wire(r) + more)[|Wire(r)|..] == more;
  }

  lemma LegalHandshake(r: Request)
    requires Handshakes(r)
    ensures r.major <= 9 && r.minor <= 9
  {}

  /** The decoder behind the read that holds the handshake and `more`. */
  function Opened(d: F.Decoder, r: Request, more: seq<byte>): F.Decoder
    requires Handshakes(r)
  {
    HeadRead(r, more);
    FirstRead(d, Wire(r) + more, AllCalls(r, true))
  }

  /** Reading on: what was left in the buffer is decoded together with the next read. */
  lemma LeftIsPrepended(cb: F.Callbacks, idle: F.Decoder, more: seq<byte>, chunks: seq<F.Chunk>)
    requires S.Idle(idle) && chunks != []
    ensures Concat(chunks) != []
    ensures F.ParseAll(cb, idle.(input := more), chunks) == F.ParseAll(cb, idle, [more + chunks[0]] + chunks[1..])
    ensures Concat([more + chunks[0]] + chunks[1..]) == more + Concat(chunks)
  {
    hide F.Decode;
    var glued: F.Chunk := more + chunks[0];
    assert ([glued] + chunks[1..])[1..] == chunks[1..];
    assert idle.(input := more).(input := more + chunks[0]) == idle.(input := [] + glued);
    assert F.Parse(cb, idle.(input := more), chunks[0]) == F.Parse(cb, idle, glued);
    assert glued + Concat(chunks[1..]) == more + (chunks[0] + Concat(chunks[1..]));
  }

  lemma SilentIffDecoded(cb: F.Callbacks, idle: F.Decoder, frames: seq<byte>)
    requires S.Idle(idle) && idle.rx.fragmentedOpcode == 0
    ensures Decoded(cb, idle, frames).events == [] <==> Q.SilentBytes(cb, 0, frames)
  {
    if frames == [] {
      Q.NothingSilent(cb, 0);
    } else {
      S.IdleParse(cb, idle, frames);
      assert S.Extended(idle, frames).input == frames;
      Q.SilentIff(cb, S.Extended(idle, frames));
    }
  }

  /**
    The handover, composed with the decoder. An accepted handshake without a body is read together with
    `more`, the beginning of the frames, and `chunks` are the reads after that. Without a further read
    nothing of `more` is decoded. With one, all that arrived behind the handshake is decoded as if the
    handshake had not been there. So the events, up to the first `close()`, are those of the frames
    iff a further read follows or the frame bytes are silent frames and an unfinished one.
  */
  lemma FramesBehindHandshake(cb: F.Callbacks, d: F.Decoder, r: Request, more: seq<byte>, chunks: seq<F.Chunk>)
    requires Unopened(d) && Handshakes(r)
    ensures var idle := d.(rx := d.rx.(status := F.Connect));
      var o, x := F.ParseAll(cb, Opened(d, r, more), chunks), Decoded(cb, idle, more + Concat(chunks));
      && (chunks == [] ==> o.events == [] && o.d == idle.(input := more))
      && (chunks != [] && !S.HasClose(x.events) ==> o == x)
      && (S.UpToClose(o.events) == S.UpToClose(x.events) <==> chunks != [] || Q.SilentBytes(cb, 0, more))
  {
    hide Handshakes, Opened, F.Parse, Q.SilentBytes;
    OpenedBy(d, r, more);
    var idle := d.(rx := d.rx.(status := F.Connect));
    if chunks == [] {
      SilentIffDecoded(cb, idle, more);
      assert more + Concat(chunks) == more;
    } else {
      LeftIsPrepended(cb, idle, more, chunks);
      S.SplitIndependence(cb, idle, [more + chunks[0]] + chunks[1..]);
    }
  }

  /**
    A handshake and a text frame in one read, and none after it: the message is not delivered, while
    the frame alone delivers it.
  */
  lemma MessageWithheld(cb: F.Callbacks, d: F.Decoder)
    requires Unopened(d) && cb.message
    ensures var r, frame, idle := C.Opening(1, 1, C.Asked()), W.Wire(W.TEXT_T), d.(rx := d.rx.(status := F.Connect));
      && Handshakes(r)
      && F.ParseAll(cb, Opened(d, r, frame), []).events == []
      && Decoded(cb, idle, frame).events == [F.Message([116], false)]
  {
    hide Handshakes, Opened, C.Asked, W.Wire;
    PlainHandshake();
    var r, frame, idle := C.Opening(1, 1, C.Asked()), W.Wire(W.TEXT_T), d.(rx := d.rx.(status := F.Connect));
    OpenedBy(d, r, frame);
    var d1 := S.Extended(idle, frame);
    assert W.Wire(W.TEXT_T) + [] == frame && d1.input == frame + [];
    W.TakeFrame(cb, d1, W.TEXT_T, []);
    FrameNotEmpty();
    assert [] + [116] == [116];
  }

  lemma FrameNotEmpty()
    ensures W.Wire(W.TEXT_T) != []
  {}

  lemma PlainHandshake()
    ensures Handshakes(C.Opening(1, 1, C.Asked()))
  {
    hide C.Plainly, C.Asked, AnswerTo, Judged, Named, LegalRequest, Wire, Any, SizeOf;
    C.AskedPlainly();
    var hs := C.Asked();
    C.MoreRoom(hs, 200, 300);
    C.OpeningLegal(1, 1, hs);
    C.OpeningAccepted(1, 1, hs);
    C.AskedNamed();
    C.PlainlyChunks(hs, 300);
  }
}
