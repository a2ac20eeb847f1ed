/**
  What the decoder does to whole frames: the bytes of a frame are read back as that frame, and a
  run over legal frames is compared with the receiver that RFC 6455, sections 5.3 to 5.5, describes.
*/
module FramingFrames {
  import opened Bytes
  import opened Framing
  import opened FramingSplit

  /** How a frame spells its payload length; RFC 6455 asks for the shortest, the decoder takes any. */
  datatype LengthForm = Short | Medium | Long

  datatype Frame = Frame(fin: bool, opcode: nat, key: Option<Key>, payload: seq<byte>, form: LengthForm)

  ghost predicate Encodable(f: Frame) {
    && f.opcode < 16
    && match f.form
       case Short => |f.payload| < 126
       case Medium => |f.payload| < 0x1_0000
       case Long => |f.payload| < 0x1_0000_0000_0000_0000
  }

  function LengthCode(f: Frame): (c: byte)
    requires Encodable(f)
    ensures c < 128
  {
    match f.form
    case Short => |f.payload|
    case Medium => 126
    case Long => 127
  }

  /** The bytes of a frame on the wire, RFC 6455 section 5.2. */
  function Wire(f: Frame): seq<byte>
    requires Encodable(f)
  {
    Header(f) + if f.key.Some? then f.key.value + Unmask(f.payload, f.key.value) else f.payload
  }

  function Header(f: Frame): seq<byte>
    requires Encodable(f)
  {
    [(if f.fin then 128 else 0) + f.opcode, (if f.key.Some? then 128 else 0) + LengthCode(f)] +
    match f.form
    case Short => []
    case Medium => ToBigEndian(|f.payload|, 2)
    case Long => ToBigEndian(|f.payload|, 8)
  }

  // ---- What the decoder sends of its own -------------------------------------------------------

  /** A close frame that gives a status code, section 5.5.1. */
  function CloseWire(code: nat): seq<byte>
    requires code < 0x1_0000
  {
    Wire(Frame(true, 8, None, ToBigEndian(code, 2), Short))
  }

  /** A ping or pong frame, unmasked as servers send them. */
  function ControlWire(opcode: nat, payload: seq<byte>): seq<byte>
    requires 8 <= opcode < 16 && |payload| < 126
  {
    Wire(Frame(true, opcode, None, payload, Short))
  }

  lemma CloseIsWire(code: nat)
    requires code < 0x1_0000
    ensures CloseFrame(code) == CloseWire(code)
  {
    hide ToBigEndian;
  }

  lemma PongIsWire(payload: seq<byte>)
    requires |payload| < 126
    ensures PongFrame(payload) == ControlWire(10, payload)
  {}

  function WireAll(fs: seq<Frame>): seq<byte>
    requires forall f :: f in fs ==> Encodable(f)
  {
    if fs == [] then [] else Wire(fs[0]) + WireAll(fs[1..])
  }

  lemma UnmaskTwice(bs: seq<byte>, key: Key)
    ensures Unmask(Unmask(bs, key), key) == bs
  {
    forall i | 0 <= i < |bs|
      ensures Unmask(Unmask(bs, key), key)[i] == bs[i]
    {
      XorInvolution(bs[i], key[i % 4]);
    }
  }

  lemma LengthRoundTrip(f: Frame)
    requires Encodable(f)
    ensures f.form == Medium ==> FromBigEndian(ToBigEndian(|f.payload|, 2)) == |f.payload|
    ensures f.form == Long ==> FromBigEndian(ToBigEndian(|f.payload|, 8)) == |f.payload|
  {
    assert Pow256(2) == 65536;
    assert Pow256(4) == 65536 * 65536;
    assert Pow256(6) == 65536 * 65536 * 65536;
    assert Pow256(8) == 0x1_0000_0000_0000_0000;
    if f.form == Medium {
      BigEndianRoundTrip(|f.payload|, 2);
    } else if f.form == Long {
      BigEndianRoundTrip(|f.payload|, 8);
    }
  }

  lemma FirstTwoBytes(f: Frame, rest: seq<byte>)
    requires Encodable(f)
    ensures var q := Wire(f) + rest;
      && |q| >= 2 && q[0] / 16 % 8 == 0 && (q[0] >= 128 <==> f.fin) && q[0] % 16 == f.opcode
      && (q[1] >= 128 <==> f.key.Some?) && q[1] % 128 == LengthCode(f)
      && LengthEnd(q[1]) == |Header(f)|
  {}

  /** A frame's own header is read back, whatever the fields held before. */
  lemma ReadBack(d: Decoder, f: Frame, rest: seq<byte>)
    requires Encodable(f) && d.input == Wire(f) + rest
    ensures var (d1, outcome) := ReadHeader(d);
      && outcome == Complete
      && d1.fin == f.fin && d1.opcode == f.opcode && d1.payloadLength == |f.payload|
      && d1.masked == f.key.Some? && (d1.masked ==> d1.maskKey == f.key.value)
      && d1.headerRead == d.headerRead && d1.rx == d.rx && d1.wanted == LengthCode(f)
      && d1.input == (if f.key.Some? then Unmask(f.payload, f.key.value) else f.payload) + rest
  {
    FirstTwoBytes(f, rest);
    LengthRoundTrip(f);
    WireSlices(f, rest);
  }

  lemma WireSlices(f: Frame, rest: seq<byte>)
    requires Encodable(f)
    ensures var q, size := Wire(f) + rest, |Header(f)|;
      && |q| >= size + (if f.key.Some? then 4 else 0) + |f.payload|
      && (f.form == Medium ==> q[2..size] == ToBigEndian(|f.payload|, 2))
      && (f.form == Long ==> q[2..size] == ToBigEndian(|f.payload|, 8))
      && (f.key.None? ==> q[size..] == f.payload + rest)
      && (f.key.Some? ==>
        && q[size..size + 4] == f.key.value
        && q[size + 4..] == Unmask(f.payload, f.key.value) + rest)
  {
    hide Unmask, ToBigEndian;
    var h := Header(f);
    var size := |h|;
    if f.key.Some? {
      var key, masked := f.key.value, Unmask(f.payload, f.key.value);
      assert Wire(f) + rest == h + (key + (masked + rest));
      TwoParts(h, key + (masked + rest));
      TwoParts(key, masked + rest);
      SliceTwice(Wire(f) + rest, size, 4);
    } else {
      assert Wire(f) + rest == h + (f.payload + rest);
      TwoParts(h, f.payload + rest);
    }
    assert (Wire(f) + rest)[2..size] == h[2..];
  }

  lemma TwoParts(a: seq<byte>, b: seq<byte>)
    ensures (a + b)[..|a|] == a && (a + b)[|a|..] == b
  {}

  /** Between frames, one activation takes exactly one frame off the input and acts on it. */
  lemma TakeFrame(cb: Callbacks, d: Decoder, f: Frame, rest: seq<byte>)
    requires Encodable(f) && !d.headerRead && d.input == Wire(f) + rest
    ensures var a, h := DecodeOnce(cb, d), Dispatch(cb, d.rx, f.fin, f.opcode, f.payload);
      && a.d.rx == h.rx && a.d.input == rest && a.events == h.events
      && a.d.headerRead == !h.cleared && a.d.wanted == (if h.cleared then 0 else LengthCode(f))
      && a.again == (h.goesOn && rest != [])
      && a.d.opcode == f.opcode && a.d.payloadLength == |f.payload|
      && (a.d.masked ==> f.key.Some? && a.d.maskKey == f.key.value)
  {
    ReadBack(d, f, rest);
    var d1 := ReadHeader(d).0;
    assert DecodeOnce(cb, d) == TakePayload(cb, d1);
    assert d1.input[..|f.payload|] == if f.key.Some? then Unmask(f.payload, f.key.value) else f.payload;
    assert d1.input[|f.payload|..] == rest;
    if f.key.Some? {
      UnmaskTwice(f.payload, f.key.value);
    }
    assert PayloadOf(d1) == f.payload;
  }

  // ---- Runs over frames ------------------------------------------------------------------------

  /** Acting on one frame after another, and the events that makes. */
  function Receive(cb: Callbacks, rx: Receiver, fs: seq<Frame>): (Receiver, seq<Event>)
    decreases |fs|
  {
    if fs == [] then (rx, [])
    else
      var h := Dispatch(cb, rx, fs[0].fin, fs[0].opcode, fs[0].payload);
      var (rx1, events) := Receive(cb, h.rx, fs[1..]);
      (rx1, h.events + events)
  }

  /** Decoding the bytes of frames is acting on the frames, as long as nothing closes. */
  lemma {:induction false} DecodeFrames(cb: Callbacks, d: Decoder, fs: seq<Frame>)
    requires fs != [] && (forall f :: f in fs ==> Encodable(f))
    requires !d.headerRead && d.rx.status == Connect && d.input == WireAll(fs)
    ensures d.input != []
    ensures var o, (rx, events) := Decode(cb, d), Receive(cb, d.rx, fs);
      && UpToClose(o.events) == UpToClose(events)
      && (HasClose(o.events) <==> HasClose(events))
      && (!HasClose(events) ==> o.events == events && !o.diverged && o.d.rx == rx && Idle(o.d))
    decreases |fs|
  {
    var f, rest := fs[0], WireAll(fs[1..]);
    var h := Dispatch(cb, d.rx, f.fin, f.opcode, f.payload);
    var a := DecodeOnce(cb, d);
    FirstTwoBytes(f, rest);
    TakeFrame(cb, d, f, rest);
    DispatchCloses(cb, d.rx, f.fin, f.opcode, f.payload);
    var (rx, events) := Receive(cb, h.rx, fs[1..]);
    UpToCloseAppend(h.events, events);
    CloseInAppend(h.events, events);
    if h.rx.status != Connect {
      ClosedFirst(cb, d);
    } else if |fs| == 1 {
      assert fs[1..] == [] && h.events + [] == h.events;
    } else {
      FirstTwoBytes(fs[1], WireAll(fs[2..]));
      assert fs[1..][1..] == fs[2..];
      DecodeFrames(cb, a.d, fs[1..]);
      UpToCloseAppend(a.events, Decode(cb, a.d).events);
      CloseInAppend(a.events, Decode(cb, a.d).events);
    }
  }

  /** Fragmentation, masking keys, length forms and TCP splits are all transparent to the frames' effect. */
  lemma ParseFrames(cb: Callbacks, d: Decoder, fs: seq<Frame>, chunks: seq<Chunk>)
    requires Idle(d) && chunks != [] && (forall f :: f in fs ==> Encodable(f))
    requires Concat(chunks) == WireAll(fs)
    ensures var o, (rx, events) := ParseAll(cb, d, chunks), Receive(cb, d.rx, fs);
      && UpToClose(o.events) == UpToClose(events)
      && (HasClose(o.events) <==> HasClose(events))
      && (!HasClose(events) ==> o.events == events && !o.diverged && o.d.rx == rx && Idle(o.d))
  {
    SplitIndependence(cb, d, chunks);
    IdleParse(cb, d, Concat(chunks));
    assert fs != [];
    assert Extended(d, Concat(chunks)).input == WireAll(fs);
    DecodeFrames(cb, Extended(d, Concat(chunks)), fs);
  }

  // ---- The receiver of RFC 6455 ----------------------------------------------------------------

  /** A message in the making: the opcode of its first fragment (0 for none) and the payload so far. */
  datatype Assembly = Assembly(kind: nat, data: seq<byte>)

  const NOTHING: Assembly := Assembly(0, [])

  predicate IsControl(f: Frame) {
    f.opcode >= 8
  }

  /** Section 5.4 for data frames and 5.5 for control frames; close frames are left out. */
  ghost predicate LegalFrame(m: Assembly, f: Frame) {
    if IsControl(f) then (f.opcode == 9 || f.opcode == 10) && f.fin && |f.payload| <= 125
    else if f.opcode == 0 then m.kind != 0
    else (f.opcode == 1 || f.opcode == 2) && m.kind == 0
  }

  function NextAssembly(m: Assembly, f: Frame): Assembly {
    if IsControl(f) then m
    else if f.fin then NOTHING
    else Assembly(if f.opcode == 0 then m.kind else f.opcode, m.data + f.payload)
  }

  ghost predicate Legal(m: Assembly, fs: seq<Frame>)
    decreases |fs|
  {
    fs == [] || (LegalFrame(m, fs[0]) && Legal(NextAssembly(m, fs[0]), fs[1..]))
  }

  /** A message is delivered with its last fragment, a ping is answered at once with a pong of its own payload. */
  function ExpectedOf(cb: Callbacks, m: Assembly, f: Frame): seq<Event> {
    if f.opcode == 9 && |f.payload| <= 125 then
      (if cb.ping then [Ping(f.payload)] else []) + [Sent(ControlWire(10, f.payload))]
    else if f.opcode == 10 then if cb.pong then [Pong(f.payload)] else []
    else if f.fin && cb.message then
      [Message(m.data + f.payload, if f.opcode == 0 then m.kind == 2 else f.opcode == 2)]
    else []
  }

  function Expected(cb: Callbacks, m: Assembly, fs: seq<Frame>): seq<Event>
    decreases |fs|
  {
    if fs == [] then [] else ExpectedOf(cb, m, fs[0]) + Expected(cb, NextAssembly(m, fs[0]), fs[1..])
  }

  /**
    Whether some message is completed after a control frame with a payload arrived while nothing was
    buffered; `leaked` says that this has happened since the last message.
  */
  predicate Corrupts(m: Assembly, leaked: bool, fs: seq<Frame>)
    decreases |fs|
  {
    fs != [] &&
    var f := fs[0];
    if IsControl(f) then Corrupts(m, leaked || (m.data == [] && f.payload != []), fs[1..])
    else (f.fin && leaked) || Corrupts(NextAssembly(m, f), !f.fin && leaked, fs[1..])
  }

  /** The receiver holds the message in the making behind `leak`, left over from control frames. */
  ghost predicate Holds(rx: Receiver, m: Assembly, leak: seq<byte>) {
    && rx.status == Connect && rx.output == []
    && m.kind <= 2 && rx.fragmentedOpcode == m.kind
    && (m.kind == 0 ==> m.data == [])
    && rx.decodeBuf == leak + m.data
  }

  /** What stays behind in the decode buffer after one more frame. */
  function NextLeak(m: Assembly, leak: seq<byte>, f: Frame): seq<byte> {
    if !IsControl(f) then if f.fin then [] else leak
    else if leak + m.data == [] then f.payload
    else leak
  }

  lemma LegalStep(cb: Callbacks, rx: Receiver, m: Assembly, leak: seq<byte>, f: Frame)
    requires Holds(rx, m, leak) && LegalFrame(m, f)
    ensures var h, expected := Dispatch(cb, rx, f.fin, f.opcode, f.payload), ExpectedOf(cb, m, f);
      && Holds(h.rx, NextAssembly(m, f), NextLeak(m, leak, f))
      && |h.events| == |expected|
      && (h.events == expected <==> IsControl(f) || !f.fin || leak == [] || !cb.message)
  {
    var h := Dispatch(cb, rx, f.fin, f.opcode, f.payload);
    assert leak + m.data + f.payload == leak + (m.data + f.payload);
    if !IsControl(f) && f.fin && cb.message {
      assert h.events[0].payload == leak + (m.data + f.payload);
      assert |h.events[0].payload| == |leak| + |m.data + f.payload|;
      if leak == [] {
        assert leak + (m.data + f.payload) == m.data + f.payload;
      }
    } else if IsControl(f) {
      PongIsWire(f.payload);
      assert [] + PongFrame(f.payload) == PongFrame(f.payload);
      if leak + m.data == [] {
        assert rx.decodeBuf + f.payload == f.payload == f.payload + m.data;
      }
    }
  }

  lemma EqualParts<T>(a: seq<T>, b: seq<T>, c: seq<T>, d: seq<T>)
    requires |a| == |c|
    ensures a + b == c + d <==> a == c && b == d
  {
    if a + b == c + d {
      assert a == (a + b)[..|a|] && c == (c + d)[..|c|];
      assert b == (a + b)[|a|..] && d == (c + d)[|c|..];
    }
  }

  /** On legal frames the decoder agrees with the reference receiver iff no message is corrupted. */
  lemma {:induction false} ReceiveMatches(cb: Callbacks, rx: Receiver, m: Assembly, leak: seq<byte>, fs: seq<Frame>)
    requires Holds(rx, m, leak) && Legal(m, fs)
    ensures var (rx1, events) := Receive(cb, rx, fs);
      && rx1.status == Connect && |events| == |Expected(cb, m, fs)|
      && (events == Expected(cb, m, fs) <==> !(cb.message && Corrupts(m, leak != [], fs)))
    decreases |fs|
  {
    if fs != [] {
      var f, rest := fs[0], fs[1..];
      LegalStep(cb, rx, m, leak, f);
      var h := Dispatch(cb, rx, f.fin, f.opcode, f.payload);
      ReceiveMatches(cb, h.rx, NextAssembly(m, f), NextLeak(m, leak, f), rest);
      EqualParts(h.events, Receive(cb, h.rx, rest).1, ExpectedOf(cb, m, f), Expected(cb, NextAssembly(m, f), rest));
    }
  }

  /** Status tells about closes over a whole run: it never returns to `CONNECT`. */
  lemma {:induction false} StillOpen(cb: Callbacks, rx: Receiver, fs: seq<Frame>)
    requires rx.status == Connect
    ensures Receive(cb, rx, fs).0.status == Connect ==> !HasClose(Receive(cb, rx, fs).1)
    decreases |fs|
  {
    if fs != [] {
      var h := Dispatch(cb, rx, fs[0].fin, fs[0].opcode, fs[0].payload);
      DispatchCloses(cb, rx, fs[0].fin, fs[0].opcode, fs[0].payload);
      CloseInAppend(h.events, Receive(cb, h.rx, fs[1..]).1);
      if h.rx.status == Connect {
        StillOpen(cb, h.rx, fs[1..]);
      } else {
        NeverReopens(cb, h.rx, fs[1..]);
      }
    }
  }

  lemma {:induction false} NeverReopens(cb: Callbacks, rx: Receiver, fs: seq<Frame>)
    requires rx.status != Connect
    ensures Receive(cb, rx, fs).0.status != Connect
    decreases |fs|
  {
    if fs != [] {
      NeverReopens(cb, Dispatch(cb, rx, fs[0].fin, fs[0].opcode, fs[0].payload).rx, fs[1..]);
    }
  }

  /** A connection that just finished its handshake. */
  ghost predicate Fresh(d: Decoder) {
    Idle(d) && d.rx.fragmentedOpcode == 0 && d.rx.decodeBuf == [] && d.rx.output == []
  }

  /**
    Refinement. However legal frames are masked, spelled and cut by TCP, the decoder delivers what
    RFC 6455 prescribes exactly when no message is completed after a control frame with a payload
    arrived on an empty decode buffer: there `unwrite` is skipped and the payload stays behind.
  */
  lemma DecoderRefinesReceiver(cb: Callbacks, d: Decoder, fs: seq<Frame>, chunks: seq<Chunk>)
    requires Fresh(d) && chunks != []
    requires (forall f :: f in fs ==> Encodable(f)) && Legal(NOTHING, fs)
    requires Concat(chunks) == WireAll(fs)
    ensures ParseAll(cb, d, chunks).events == Expected(cb, NOTHING, fs) <==> !(cb.message && Corrupts(NOTHING, false, fs))
    ensures !ParseAll(cb, d, chunks).diverged && Idle(ParseAll(cb, d, chunks).d)
  {
    ParseFrames(cb, d, fs, chunks);
    ReceiveMatches(cb, d.rx, NOTHING, [], fs);
    StillOpen(cb, d.rx, fs);
  }

  const PING_P: Frame := Frame(true, 9, None, [112], Short)
  const TEXT_T: Frame := Frame(true, 1, None, [116], Short)

  /** A ping with a payload ahead of a message is enough to spoil the message. */
  lemma PingLeaksIntoMessage(cb: Callbacks, d: Decoder)
    requires cb.message && cb.ping && Fresh(d)
    ensures Legal(NOTHING, [PING_P, TEXT_T])
    ensures ParseAll(cb, d, [WireAll([PING_P, TEXT_T])]).events ==
      [Ping([112]), Sent([0x8a, 1, 112]), Message([112, 116], false)]
  {
    var fs := [PING_P, TEXT_T];
    var chunk: Chunk := WireAll(fs);
    assert fs[1..] == [TEXT_T] && [TEXT_T][1..] == [];
    assert Concat([chunk]) == chunk + [] == chunk;
    ParseFrames(cb, d, fs, [chunk]);
    StillOpen(cb, d.rx, fs);
    LeakReceived(cb, d.rx);
  }

  lemma LeakReceived(cb: Callbacks, rx: Receiver)
    requires cb.message && cb.ping && rx.fragmentedOpcode == 0 && rx.decodeBuf == [] && rx.output == []
    ensures Receive(cb, rx, [PING_P, TEXT_T]).1 == [Ping([112]), Sent([0x8a, 1, 112]), Message([112, 116], false)]
    ensures Receive(cb, rx, [PING_P, TEXT_T]).0.status == rx.status
  {
    var fs := [PING_P, TEXT_T];
    assert fs[1..] == [TEXT_T] && [TEXT_T][1..] == [];
    var h := Dispatch(cb, rx, true, 9, [112]);
    assert [] + PongFrame([112]) == [0x8a, 1, 112];
    assert h.rx == rx.(decodeBuf := [112]) && h.events == [Ping([112]), Sent([0x8a, 1, 112])];
    var h2 := Dispatch(cb, h.rx, true, 1, [116]);
    assert h.rx.decodeBuf + [116] == [112, 116];
    assert Receive(cb, h.rx, [TEXT_T]) == (h2.rx, h2.events + []);
  }

  // ---- What the encoder sends ------------------------------------------------------------------

  datatype Data = Data(payload: seq<byte>, binary: bool)

  /** The frame that `sendMessage` writes: the header of `writeHeader`, then the payload unmasked. */
  function Encoded(m: Data): seq<byte>
    requires |m.payload| < 0x1_0000_0000_0000_0000
  {
    HeaderBytes(|m.payload|, if m.binary then 2 else 1) + m.payload
  }

  function ShortestForm(len: nat): LengthForm {
    if len < 126 then Short else if len <= 0xffff then Medium else Long
  }

  /** The same frame with a masking key, as a client must send it. */
  function DataFrameOf(m: Data, key: Option<Key>): (f: Frame)
    requires |m.payload| < 0x1_0000_0000_0000_0000
    ensures Encodable(f)
  {
    Frame(true, if m.binary then 2 else 1, key, m.payload, ShortestForm(|m.payload|))
  }

  lemma EncodedIsWire(m: Data)
    requires |m.payload| < 0x1_0000_0000_0000_0000
    ensures Encoded(m) == Wire(DataFrameOf(m, None))
  {}

  function EncodedAll(ms: seq<Data>): seq<byte>
    requires forall m :: m in ms ==> |m.payload| < 0x1_0000_0000_0000_0000
  {
    if ms == [] then [] else Encoded(ms[0]) + EncodedAll(ms[1..])
  }

  function FramesOf(ms: seq<Data>, keys: seq<Option<Key>>): (fs: seq<Frame>)
    requires |ms| == |keys| && forall m :: m in ms ==> |m.payload| < 0x1_0000_0000_0000_0000
    ensures forall f :: f in fs ==> Encodable(f)
  {
    if ms == [] then [] else [DataFrameOf(ms[0], keys[0])] + FramesOf(ms[1..], keys[1..])
  }

  function MessagesOf(ms: seq<Data>): seq<Event> {
    if ms == [] then [] else [Message(ms[0].payload, ms[0].binary)] + MessagesOf(ms[1..])
  }

  lemma {:induction false} FramesOfMessages(cb: Callbacks, ms: seq<Data>, keys: seq<Option<Key>>)
    requires cb.message && |ms| == |keys|
    requires forall m :: m in ms ==> |m.payload| < 0x1_0000_0000_0000_0000
    ensures var fs := FramesOf(ms, keys);
      && Legal(NOTHING, fs) && !Corrupts(NOTHING, false, fs) && Expected(cb, NOTHING, fs) == MessagesOf(ms)
  {
    if ms != [] {
      FramesOfMessages(cb, ms[1..], keys[1..]);
      var fs := FramesOf(ms, keys);
      assert fs[1..] == FramesOf(ms[1..], keys[1..]);
      assert [] + ms[0].payload == ms[0].payload;
    }
  }

  /** Encoding then decoding is the identity, for any masking keys and any TCP splits. */
  lemma MaskedRoundTrip(cb: Callbacks, d: Decoder, ms: seq<Data>, keys: seq<Option<Key>>, chunks: seq<Chunk>)
    requires cb.message && Fresh(d) && |ms| == |keys| && chunks != []
    requires forall m :: m in ms ==> |m.payload| < 0x1_0000_0000_0000_0000
    requires Concat(chunks) == WireAll(FramesOf(ms, keys))
    ensures ParseAll(cb, d, chunks).events == MessagesOf(ms)
  {
    FramesOfMessages(cb, ms, keys);
    DecoderRefinesReceiver(cb, d, FramesOf(ms, keys), chunks);
  }

  lemma {:induction false} EncodedAllIsWire(ms: seq<Data>)
    requires forall m :: m in ms ==> |m.payload| < 0x1_0000_0000_0000_0000
    ensures var fs := FramesOf(ms, seq(|ms|, _ => None));
      EncodedAll(ms) == WireAll(fs)
  {
    if ms != [] {
      EncodedAllIsWire(ms[1..]);
      var none: seq<Option<Key>> := seq(|ms|, _ => None);
      assert none[1..] == seq(|ms[1..]|, _ => None);
      var fs := FramesOf(ms, none);
      assert fs[1..] == FramesOf(ms[1..], none[1..]) && fs[0] == DataFrameOf(ms[0], None);
      EncodedIsWire(ms[0]);
    }
  }

  /** What the engine's own `sendMessage` wrote is decoded to the same messages and types. */
  lemma EncoderRoundTrip(cb: Callbacks, d: Decoder, ms: seq<Data>, chunks: seq<Chunk>)
    requires cb.message && Fresh(d) && chunks != []
    requires forall m :: m in ms ==> |m.payload| < 0x1_0000_0000_0000_0000
    requires Concat(chunks) == EncodedAll(ms)
    ensures ParseAll(cb, d, chunks).events == MessagesOf(ms)
  {
    EncodedAllIsWire(ms);
    MaskedRoundTrip(cb, d, ms, seq(|ms|, _ => None), chunks);
  }
}
