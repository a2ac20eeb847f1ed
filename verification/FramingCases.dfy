/**
  What the decoder sends of its own, as bytes on the wire: answers to pings, and the close frame that
  every frame against the protocol brings. Then the examples of section 5.7 of RFC 6455.
*/
module FramingCases {
  import opened Bytes
  import opened Framing
  import opened FramingSplit
  import opened FramingFrames

  // ---- Frames against the protocol -------------------------------------------------------------

  /** What a frame against the protocol brings: no more reading, and a close frame with the code 1002. */
  const REFUSAL: seq<Event> := [StopRead, Sent([0x88, 0x02, 0x03, 0xea]), CloseCalled(1002)]

  /** The code of a protocol error in network order. */
  lemma ErrorFrame()
    ensures CloseWire(PROTOCOL_ERROR) == CloseFrame(PROTOCOL_ERROR) == [0x88, 0x02, 0x03, 0xea]
  {
    assert ToBigEndian(3, 1) == [3];
  }

  /** A fragment of no message or one too many, a fragmented control frame, or an opcode that is reserved. */
  predicate BreaksProtocol(kind: nat, f: Frame) {
    if f.opcode == 0 then kind == 0
    else if f.opcode == 1 || f.opcode == 2 then kind != 0
    else if f.opcode == 9 || f.opcode == 10 then !f.fin
    else f.opcode != 8
  }

  /** A ping too long to be answered. */
  predicate TooLong(f: Frame) {
    f.opcode == 9 && f.fin && |f.payload| >= 126
  }

  lemma RefusedBy(rx: Receiver)
    ensures Close(rx, PROTOCOL_ERROR).1 == REFUSAL && Close(rx, PROTOCOL_ERROR).0.status == Closing
  {
    ErrorFrame();
  }

  /**
    A frame against the protocol is refused and nothing behind it is decoded; so is a ping that is too
    long, behind its callback, while decoding goes on; and no other frame is.
  */
  lemma RefusedIff(cb: Callbacks, d: Decoder, f: Frame, rest: seq<byte>)
    requires Encodable(f) && !d.headerRead && d.input == Wire(f) + rest
    ensures d.input != []
    ensures var a := DecodeOnce(cb, d);
      && (BreaksProtocol(d.rx.fragmentedOpcode, f) ==>
           a.events == REFUSAL && a.d.rx.status == Closing && Decode(cb, d) == Outcome(a.d, REFUSAL, false))
      && (TooLong(f) ==> a.events == (if cb.ping then [Ping(f.payload)] else []) + REFUSAL && a.d.rx.status == Closing)
      && (CloseCalled(1002) in a.events <==> BreaksProtocol(d.rx.fragmentedOpcode, f) || TooLong(f))
  {
    hide DecodeOnce, Dispatch, Wire, BreaksProtocol, TooLong;
    FirstTwoBytes(f, rest);
    TakeFrame(cb, d, f, rest);
    DispatchRefuses(cb, d.rx, f);
    DecodeUnfold(cb, d);
  }

  lemma DispatchRefuses(cb: Callbacks, rx: Receiver, f: Frame)
    ensures var h := Dispatch(cb, rx, f.fin, f.opcode, f.payload);
      && (BreaksProtocol(rx.fragmentedOpcode, f) ==> h.events == REFUSAL && h.rx.status == Closing && !h.goesOn)
      && (TooLong(f) ==> h.events == (if cb.ping then [Ping(f.payload)] else []) + REFUSAL && h.rx.status == Closing)
      && (CloseCalled(1002) in h.events <==> BreaksProtocol(rx.fragmentedOpcode, f) || TooLong(f))
  {
    var rx1 := rx.(decodeBuf := rx.decodeBuf + f.payload);
    RefusedBy(rx1);
    hide Close;
    if f.opcode == 8 {
      CloseAnswered(rx1);
    } else if f.opcode == 9 && f.fin {
      PingAnswered(rx1, f.payload);
    }
  }

  lemma CloseAnswered(rx: Receiver)
    ensures CloseCalled(1002) !in Close(rx, NORMAL_CLOSE).1
  {}

  lemma PingAnswered(rx: Receiver, payload: seq<byte>)
    ensures CloseCalled(1002) in SendPong(rx, payload).1 <==> |payload| >= 126
    ensures |payload| >= 126 ==> SendPong(rx, payload) == Close(rx, PROTOCOL_ERROR)
  {}

  /** So is a frame that sets a reserved bit, by its first byte. */
  lemma ReservedBits(cb: Callbacks, d: Decoder)
    requires !d.headerRead && d.input != [] && d.input[0] / 16 % 8 != 0
    ensures Decode(cb, d).events == REFUSAL && !Decode(cb, d).diverged && Decode(cb, d).d.rx.status == Closing
  {
    RefusedBy(ReadHeader(d).0.rx);
    hide Close;
  }

  // ---- Pings and pongs -------------------------------------------------------------------------

  /** A frame that is legal by itself, read by a connection that just finished its handshake. */
  lemma OneFrame(cb: Callbacks, d: Decoder, f: Frame)
    requires Fresh(d) && Encodable(f) && LegalFrame(NOTHING, f)
    ensures Wire(f) != [] && ParseAll(cb, d, [Wire(f)]).events == ExpectedOf(cb, NOTHING, f)
  {
    hide Wire, ParseAll, ExpectedOf;
    var fs := [f];
    FirstTwoBytes(f, []);
    assert fs[1..] == [] && Wire(f) + [] == Wire(f);
    assert [Wire(f)][1..] == [];
    assert ExpectedOf(cb, NOTHING, f) + [] == ExpectedOf(cb, NOTHING, f);
    DecoderRefinesReceiver(cb, d, fs, [Wire(f)]);
  }

  /**
    A ping between two engines, with nothing else on the way: what `ping` sends is a ping frame, the other
    side is told of it and answers with a pong frame of the same payload, and that comes back as a pong.
  */
  lemma PingComesBack(cb: Callbacks, d1: Decoder, d2: Decoder, payload: seq<byte>)
    requires Fresh(d1) && Fresh(d2) && |payload| < 126
    ensures var ping, pong := ControlWire(9, payload), ControlWire(10, payload);
      && SendPing(d1.rx, payload) == (d1.rx, [Sent(ping)]) && ping != [] && pong != []
      && ParseAll(cb, d2, [ping]).events == (if cb.ping then [Ping(payload)] else []) + [Sent(pong)]
      && ParseAll(cb, d1, [pong]).events == if cb.pong then [Pong(payload)] else []
  {
    hide ParseAll;
    OneFrame(cb, d2, Frame(true, 9, None, payload, Short));
    OneFrame(cb, d1, Frame(true, 10, None, payload, Short));
    assert [] + ([0x89, |payload|] + payload) == ControlWire(9, payload);
  }

  /** A close leaves its frame in the output buffer: the next ping or pong sends it once more, in front. */
  lemma CloseIsRepeated(rx: Receiver, code: nat, payload: seq<byte>)
    requires code < 0x1_0000 && |payload| < 126
    ensures var rx1 := Close(rx, code).0;
      && SendPing(rx1, payload) == (rx1.(output := []), [Sent(CloseWire(code) + ControlWire(9, payload))])
      && SendPong(rx1, payload) == (rx1.(output := []), [Sent(CloseWire(code) + ControlWire(10, payload))])
  {
    hide ToBigEndian;
    CloseIsWire(code);
    PongIsWire(payload);
    assert [0x89, |payload|] + payload == ControlWire(9, payload);
  }

  // ---- The examples of section 5.7 of RFC 6455 -------------------------------------------------

  const HELLO: seq<byte> := [0x48, 0x65, 0x6c, 0x6c, 0x6f]
  const MASKED: seq<byte> := [0x37, 0xfa, 0x21, 0x3d, 0x7f, 0x9f, 0x4d, 0x51, 0x58]

  /** The key and the masked text of the examples. */
  lemma HelloMasked()
    ensures [0x37, 0xfa, 0x21, 0x3d] + Unmask(HELLO, [0x37, 0xfa, 0x21, 0x3d]) == MASKED
  {
    hide Xor;
    HelloBegins();
    HelloEnds();
  }

  lemma HelloBegins()
    ensures Xor(0x48, 0x37) == 0x7f && Xor(0x65, 0xfa) == 0x9f
  {
    hide Xor;
    XorSum(0x48, 0x37);
    XorSum(0x65, 0xfa);
  }

  lemma HelloEnds()
    ensures Xor(0x6c, 0x21) == 0x4d && Xor(0x6c, 0x3d) == 0x51 && Xor(0x6f, 0x37) == 0x58
  {
    hide Xor;
    XorSum(0x6c, 0x21);
    XorSum(0x6c, 0x3d);
    XorSum(0x6f, 0x37);
  }

  /** A text message, as `sendMessage` writes it, and unmasked and masked as it is read. */
  lemma TextExamples(cb: Callbacks, d: Decoder)
    requires Fresh(d) && cb.message
    ensures Encoded(Data(HELLO, false)) == [0x81, 0x05] + HELLO
    ensures ParseAll(cb, d, [[0x81, 0x05] + HELLO]).events == [Message(HELLO, false)]
    ensures ParseAll(cb, d, [[0x81, 0x85] + MASKED]).events == [Message(HELLO, false)]
  {
    hide ParseAll, Encoded, Wire;
    TextWritten();
    TextRead(cb, d, None);
    TextRead(cb, d, Some([0x37, 0xfa, 0x21, 0x3d]));
  }

  lemma TextWritten()
    ensures Encoded(Data(HELLO, false)) == [0x81, 0x05] + HELLO == Wire(Frame(true, 1, None, HELLO, Short))
    ensures Wire(Frame(true, 1, Some([0x37, 0xfa, 0x21, 0x3d]), HELLO, Short)) == [0x81, 0x85] + MASKED
  {
    hide Unmask;
    HelloMasked();
  }

  lemma TextRead(cb: Callbacks, d: Decoder, key: Option<Key>)
    requires Fresh(d) && cb.message
    ensures var w := Wire(Frame(true, 1, key, HELLO, Short)); w != [] && ParseAll(cb, d, [w]).events == [Message(HELLO, false)]
  {
    hide ParseAll, Wire;
    OneFrame(cb, d, Frame(true, 1, key, HELLO, Short));
    assert [] + HELLO == HELLO;
  }

  /** The same message in two fragments. */
  lemma FragmentExample(cb: Callbacks, d: Decoder)
    requires Fresh(d) && cb.message
    ensures ParseAll(cb, d, [[0x01, 0x03, 0x48, 0x65, 0x6c], [0x80, 0x02, 0x6c, 0x6f]]).events == [Message(HELLO, false)]
  {
    hide ParseAll;
    var f1, f2 := Frame(false, 1, None, [0x48, 0x65, 0x6c], Short), Frame(true, 0, None, [0x6c, 0x6f], Short);
    assert Wire(f1) == [0x01, 0x03, 0x48, 0x65, 0x6c] && Wire(f2) == [0x80, 0x02, 0x6c, 0x6f];
    TwoFrames(cb, d, f1, f2, [Wire(f1), Wire(f2)]);
    assert [] + f1.payload + f2.payload == HELLO;
  }

  lemma OneWire(f: Frame)
    requires Encodable(f)
    ensures WireAll([f]) == Wire(f)
  {
    assert [f][1..] == [] && Wire(f) + [] == Wire(f);
  }

  lemma TwoFrames(cb: Callbacks, d: Decoder, f1: Frame, f2: Frame, chunks: seq<Chunk>)
    requires Fresh(d) && Encodable(f1) && Encodable(f2) && LegalFrame(NOTHING, f1) && LegalFrame(NextAssembly(NOTHING, f1), f2)
    requires !IsControl(f1) && !IsControl(f2) && chunks == [Wire(f1), Wire(f2)]
    ensures ParseAll(cb, d, chunks).events == ExpectedOf(cb, NOTHING, f1) + ExpectedOf(cb, NextAssembly(NOTHING, f1), f2)
  {
    hide Wire, ParseAll, ExpectedOf, LegalFrame;
    var fs := [f1, f2];
    assert fs[1..] == [f2] && [f2][1..] == [];
    assert chunks[1..][1..] == [] && chunks[1..][0] == Wire(f2);
    assert Concat(chunks[1..]) == Wire(f2) + [] == Wire(f2);
    OneWire(f2);
    var m := NextAssembly(NOTHING, f1);
    assert Legal(m, [f2]);
    assert Expected(cb, m, [f2]) == ExpectedOf(cb, m, f2) + [] == ExpectedOf(cb, m, f2);
    assert Expected(cb, NOTHING, fs) == ExpectedOf(cb, NOTHING, f1) + Expected(cb, m, [f2]);
    assert !Corrupts(m, false, [f2]);
    DecoderRefinesReceiver(cb, d, fs, chunks);
  }

  /** A ping and its answer, and a masked pong. */
  lemma PingExamples(cb: Callbacks, d: Decoder)
    requires Fresh(d) && cb.ping && cb.pong
    ensures ParseAll(cb, d, [[0x89, 0x05] + HELLO]).events == [Ping(HELLO), Sent([0x8a, 0x05] + HELLO)]
    ensures ParseAll(cb, d, [[0x8a, 0x85] + MASKED]).events == [Pong(HELLO)]
  {
    hide ParseAll, Wire;
    ControlWritten();
    OneFrame(cb, d, Frame(true, 9, None, HELLO, Short));
    OneFrame(cb, d, Frame(true, 10, Some([0x37, 0xfa, 0x21, 0x3d]), HELLO, Short));
  }

  lemma ControlWritten()
    ensures Wire(Frame(true, 9, None, HELLO, Short)) == [0x89, 0x05] + HELLO && ControlWire(10, HELLO) == [0x8a, 0x05] + HELLO
    ensures Wire(Frame(true, 10, Some([0x37, 0xfa, 0x21, 0x3d]), HELLO, Short)) == [0x8a, 0x85] + MASKED
  {
    hide Unmask;
    HelloMasked();
  }

  /** Binary messages of 256 and of 65536 bytes, as they are written and as they are read. */
  lemma BinaryExamples(cb: Callbacks, d: Decoder, short: seq<byte>, long: seq<byte>)
    requires Fresh(d) && cb.message && |short| == 256 && |long| == 65536
    ensures Encoded(Data(short, true)) == [0x82, 0x7e, 0x01, 0x00] + short
    ensures Encoded(Data(long, true)) == [0x82, 0x7f, 0x00, 0x00, 0x00, 0x00, 0x00, 0x01, 0x00, 0x00] + long
    ensures ParseAll(cb, d, [[0x82, 0x7e, 0x01, 0x00] + short]).events == [Message(short, true)]
    ensures ParseAll(cb, d, [[0x82, 0x7f, 0x00, 0x00, 0x00, 0x00, 0x00, 0x01, 0x00, 0x00] + long]).events == [Message(long, true)]
  {
    hide ParseAll, Encoded;
    BinaryWritten(short, long);
    BinaryRead(cb, d, Data(short, true));
    BinaryRead(cb, d, Data(long, true));
  }

  lemma BinaryWritten(short: seq<byte>, long: seq<byte>)
    requires |short| == 256 && |long| == 65536
    ensures Encoded(Data(short, true)) == [0x82, 0x7e, 0x01, 0x00] + short
    ensures Encoded(Data(long, true)) == [0x82, 0x7f, 0x00, 0x00, 0x00, 0x00, 0x00, 0x01, 0x00, 0x00] + long
  {
    assert ToBigEndian(256, 2) == [0x01, 0x00];
    assert ToBigEndian(65536, 8) == [0x00, 0x00, 0x00, 0x00, 0x00, 0x01, 0x00, 0x00];
  }

  lemma BinaryRead(cb: Callbacks, d: Decoder, m: Data)
    requires Fresh(d) && cb.message && |m.payload| < 0x1_0000_0000_0000_0000
    ensures Encoded(m) != [] && ParseAll(cb, d, [Encoded(m)]).events == [Message(m.payload, m.binary)]
  {
    hide ParseAll, Encoded, Wire;
    EncodedIsWire(m);
    OneFrame(cb, d, DataFrameOf(m, None));
    assert [] + m.payload == m.payload;
  }

  /** An empty close frame: it is answered with the code 1000, and the connection is closed. */
  lemma CloseExample(cb: Callbacks, d: Decoder)
    requires Fresh(d)
    ensures ParseAll(cb, d, [[0x88, 0x00]]).events == [Sent([0x88, 0x02, 0x03, 0xe8]), CloseCalled(1000), TcpClose]
    ensures ParseAll(cb, d, [[0x88, 0x00]]).d.rx.status == Closed
  {
    hide Decode, DecodeOnce, Dispatch;
    var f, chunk: Chunk := Frame(true, 8, None, [], Short), [0x88, 0x00];
    var d1 := d.(input := d.input + chunk);
    assert chunk == Wire(f) + [] && d1.input == chunk;
    TakeFrame(cb, d1, f, []);
    Goodbye(cb, d.rx);
    DecodeUnfold(cb, d1);
    ParseAllCons(cb, d, chunk, []);
    assert [chunk] + [] == [chunk];
  }

  lemma Goodbye(cb: Callbacks, rx: Receiver)
    requires rx.status == Connect
    ensures var h := Dispatch(cb, rx, true, 8, []);
      && h.events == [Sent([0x88, 0x02, 0x03, 0xe8]), CloseCalled(1000), TcpClose] && h.rx.status == Closed
  {
    assert ToBigEndian(3, 1) == [3];
    assert CloseFrame(1000) == [0x88, 0x02, 0x03, 0xe8];
  }
}
