/**
  The frame decoder of src/WebSocketConnection.cpp as functions on values: what one activation of
  `decode` does, what its recursion amounts to, and what `parse` does with one more chunk of input.
  The class in WebSocketConnection.dfy is proved against these functions.
*/
module Framing {
  import opened Bytes

  datatype Status = Initial | Handshake | Connect | Closing | Closed

  const NORMAL_CLOSE: nat := 1000
  const PROTOCOL_ERROR: nat := 1002

  /** What the connection does to the outside: callbacks it makes and calls on the TCP connection. */
  datatype Event =
    | Message(payload: seq<byte>, binary: bool)
    | Ping(payload: seq<byte>)
    | Pong(payload: seq<byte>)
    | Sent(bytes: seq<byte>)
    | StopRead
    | CloseCalled(code: nat)
    | TcpClose

  /** Which of the three user callbacks are registered. */
  datatype Callbacks = Callbacks(message: bool, ping: bool, pong: bool)

  type Key = k: seq<byte> | |k| == 4 witness [0, 0, 0, 0]

  type Chunk = c: seq<byte> | c != [] witness [0]

  /** The fields that acting on a whole frame reads and writes. */
  datatype Receiver = Receiver(
    status: Status,
    fragmentedOpcode: nat,
    decodeBuf: seq<byte>,
    output: seq<byte>)

  /**
    The decoder's fields, with its three buffers seen as byte queues. `maskKey` and the frame fields
    keep whatever the last header left in them, as the C++ members do.
  */
  datatype Decoder = Decoder(
    headerRead: bool,
    wanted: nat,
    fin: bool,
    opcode: nat,
    masked: bool,
    payloadLength: nat,
    maskKey: Key,
    input: seq<byte>,
    rx: Receiver)

  /** The state after one activation of `decode`, and whether it goes on to call itself. */
  datatype Activation = Activation(d: Decoder, events: seq<Event>, again: bool)

  /**
    What the opcode switch made of one frame: whether it left by `break` rather than `return`, and
    whether it called `clearDecodeStatus`.
  */
  datatype Handled = Handled(rx: Receiver, events: seq<Event>, goesOn: bool, cleared: bool)

  /** `diverged` says that the recursion of `decode` never returns. */
  datatype Outcome = Outcome(d: Decoder, events: seq<Event>, diverged: bool)
  {
    function Then(next: Outcome): Outcome {
      Outcome(next.d, events + next.events, diverged || next.diverged)
    }
  }

  // ---- Encoding --------------------------------------------------------------------------------

  /** The bytes `writeHeader` puts in front of a payload of `len` bytes. */
  function HeaderBytes(len: nat, opcode: byte): seq<byte>
    requires opcode < 16 && len < 0x1_0000_0000_0000_0000
  {
    [0x80 + opcode] +
    if len < 126 then [len]
    else if len <= 0xffff then [126] + ToBigEndian(len, 2)
    else [127] + ToBigEndian(len, 8)
  }

  function CloseFrame(code: nat): seq<byte> {
    [0x88, 0x02] + ToBigEndian(code, 2)
  }

  function PongFrame(payload: seq<byte>): seq<byte>
    requires |payload| < 126
  {
    [0x8a, |payload|] + payload
  }

  /** `close(code)`: the frame is peeked, not retrieved, so it stays in the output buffer. */
  function Close(rx: Receiver, code: nat): (Receiver, seq<Event>) {
    (rx.(output := CloseFrame(code), status := Closing),
     (if code != NORMAL_CLOSE then [StopRead] else []) + [Sent(CloseFrame(code)), CloseCalled(code)])
  }

  /** `pong(payload)`: too long a payload closes the connection instead. */
  function SendPong(rx: Receiver, payload: seq<byte>): (Receiver, seq<Event>) {
    if |payload| >= 126 then Close(rx, PROTOCOL_ERROR)
    else (rx.(output := []), [Sent(rx.output + PongFrame(payload))])
  }

  function SendPing(rx: Receiver, payload: seq<byte>): (Receiver, seq<Event>) {
    if |payload| >= 126 then Close(rx, PROTOCOL_ERROR)
    else (rx.(output := []), [Sent(rx.output + ([0x89, |payload|] + payload))])
  }

  // ---- Decoding --------------------------------------------------------------------------------

  datatype HeaderOutcome = Complete | Partial | BadRsv

  /**
    Lines 233 to 290: read a header off the input. A partial header is un-read; the fields assigned
    on the way keep their new values, and `wanted` says how many bytes to wait for.
  */
  function ReadHeader(d: Decoder): (Decoder, HeaderOutcome)
    requires d.input != []
  {
    var first := d.input[0];
    if first / 16 % 8 != 0 then (d.(input := d.input[1..]), BadRsv) else
    var d1 := d.(fin := first >= 128, opcode := first % 16);
    if |d.input| < 2 then (d1.(headerRead := false, wanted := 2), Partial) else
    var second := d.input[1];
    ReadRest(d1.(masked := second >= 128, payloadLength := second % 128, wanted := second % 128), d.input)
  }

  /** The header behind the first two bytes of `q`, for which `d` has been updated already. */
  function ReadRest(d: Decoder, q: seq<byte>): (Decoder, HeaderOutcome)
    requires |q| >= 2
  {
    var size := LengthEnd(q[1]);
    if |q| < size then (d.(headerRead := false, wanted := size, input := q), Partial) else
    var d1 := if size == 2 then d else d.(payloadLength := FromBigEndian(q[2..size]));
    if !d.masked then (d1.(input := q[size..]), Complete)
    else if |q| < size + 4 then (d1.(headerRead := false, wanted := size + 4, input := q), Partial)
    else (d1.(maskKey := q[size..size + 4], input := q[size + 4..]), Complete)
  }

  lemma RestIgnoresInput(d: Decoder, x: seq<byte>, q: seq<byte>)
    requires |q| >= 2
    ensures ReadRest(d.(input := x), q) == ReadRest(d, q)
  {}

  /** How many header bytes precede the masking key, given the second byte. */
  function LengthEnd(second: byte): nat {
    if second % 128 == 126 then 4 else if second % 128 == 127 then 10 else 2
  }

  function Unmask(bs: seq<byte>, key: Key): (r: seq<byte>)
    ensures |r| == |bs|
    ensures forall i :: 0 <= i < |bs| ==> r[i] == Xor(bs[i], key[i % 4])
  {
    seq(|bs|, i requires 0 <= i < |bs| => Xor(bs[i], key[i % 4]))
  }

  /** One activation of `decode`, lines 231 to 408. */
  function DecodeOnce(cb: Callbacks, d: Decoder): (a: Activation)
    requires d.headerRead || d.input != []
    ensures |a.d.input| <= |d.input| && (a.again ==> a.d.input != [])
  {
    if d.headerRead then TakePayload(cb, d) else
    match ReadHeader(d)
    case (d1, BadRsv) =>
      var (rx, ev) := Close(d1.rx, PROTOCOL_ERROR);
      Activation(d1.(rx := rx), ev, false)
    case (d1, Partial) => Activation(d1, [], false)
    case (d1, Complete) => TakePayload(cb, d1)
  }

  /** Lines 291 to 310: wait for the whole payload, then act on it, unmasked. */
  function TakePayload(cb: Callbacks, d: Decoder): (a: Activation)
    ensures |a.d.input| <= |d.input| && (a.again ==> a.d.input != [])
  {
    if d.payloadLength > |d.input| then
      Activation(d.(headerRead := true, wanted := d.payloadLength), [], false)
    else
      var h := Dispatch(cb, d.rx, d.fin, d.opcode, PayloadOf(d));
      var rest := d.input[d.payloadLength..];
      Activation(
        d.(rx := h.rx, input := rest, headerRead := !h.cleared, wanted := if h.cleared then 0 else d.wanted),
        h.events, h.goesOn && rest != [])
  }

  function PayloadOf(d: Decoder): (r: seq<byte>)
    requires d.payloadLength <= |d.input|
    ensures |r| == d.payloadLength
  {
    var raw := d.input[..d.payloadLength];
    if d.masked then Unmask(raw, d.maskKey) else raw
  }

  /** Lines 312 to 404: act on one frame, with `data` its payload and `rx.decodeBuf` what was buffered before. */
  function Dispatch(cb: Callbacks, rx: Receiver, fin: bool, opcode: nat, data: seq<byte>): Handled {
    var rx1 := rx.(decodeBuf := rx.decodeBuf + data);
    match opcode
    case 0 =>
      if rx.fragmentedOpcode == 0 then Fail(rx1)
      else if !fin then Handled(rx1, [], true, true)
      else
        var known := rx.fragmentedOpcode == 1 || rx.fragmentedOpcode == 2;
        Handled(
          rx1.(fragmentedOpcode := 0, decodeBuf := if cb.message && !known then rx1.decodeBuf else []),
          if cb.message && known then [Message(rx1.decodeBuf, rx.fragmentedOpcode == 2)] else [], true, true)
    case 1 => DataFrame(cb, rx1, fin, opcode)
    case 2 => DataFrame(cb, rx1, fin, opcode)
    case 8 =>
      if rx.status == Connect then
        var (rx2, ev) := Close(rx1, NORMAL_CLOSE);
        Handled(rx2.(status := Closed), ev + [TcpClose], true, false)
      else Handled(rx1, [], true, false)
    case 9 =>
      if !fin then Fail(rx1) else
      var (rx2, ev) := SendPong(rx1, data);
      Handled(Trimmed(rx2, rx.decodeBuf, data), (if cb.ping then [Ping(data)] else []) + ev, true, true)
    case 10 =>
      if !fin then Fail(rx1) else
      Handled(Trimmed(rx1, rx.decodeBuf, data), if cb.pong then [Pong(data)] else [], true, true)
    case _ => Fail(rx1)
  }

  function DataFrame(cb: Callbacks, rx: Receiver, fin: bool, opcode: nat): Handled {
    if rx.fragmentedOpcode != 0 then Fail(rx)
    else if fin then
      Handled(rx.(decodeBuf := []), if cb.message then [Message(rx.decodeBuf, opcode == 2)] else [], true, true)
    else Handled(rx.(fragmentedOpcode := opcode), [], true, true)
  }

  /** `if (originSize != 0) unwrite(payloadLength_)`: nothing is taken back from a buffer that was empty. */
  function Trimmed(rx: Receiver, before: seq<byte>, data: seq<byte>): Receiver {
    rx.(decodeBuf := if before == [] then data else before)
  }

  function Fail(rx: Receiver): Handled {
    var (rx1, ev) := Close(rx, PROTOCOL_ERROR);
    Handled(rx1, ev, false, false)
  }

  /**
    The recursion of `decode`. An activation that would call itself in the very state it started
    from is repeated for ever.
  */
  function Decode(cb: Callbacks, d: Decoder): Outcome
    requires d.headerRead || d.input != []
    decreases |d.input|, d.headerRead, d.rx.status == Connect
  {
    var a := DecodeOnce(cb, d);
    if !a.again then Outcome(a.d, a.events, false)
    else if a.d == d then Outcome(a.d, a.events, true)
    else
      AgainDescends(cb, d);
      Outcome(a.d, a.events, false).Then(Decode(cb, a.d))
  }

  /** An activation followed by another one consumes input, finishes a frame, closes or changes nothing. */
  lemma AgainDescends(cb: Callbacks, d: Decoder)
    requires d.headerRead || d.input != []
    requires DecodeOnce(cb, d).again && DecodeOnce(cb, d).d != d
    ensures var a := DecodeOnce(cb, d).d;
      || |a.input| < |d.input|
      || (a.input == d.input && d.headerRead && !a.headerRead)
      || (a.input == d.input && d.headerRead == a.headerRead && d.rx.status == Connect && a.rx.status != Connect)
  {
    if d.headerRead && d.payloadLength == 0 {
      EmptyPayload(cb, d);
    } else {
      Consumes(cb, d);
    }
  }

  /** The only state that an activation followed by another one leaves as it was. */
  lemma StuckIff(cb: Callbacks, d: Decoder)
    requires (d.headerRead || d.input != []) && DecodeOnce(cb, d).again
    ensures DecodeOnce(cb, d).d == d <==>
      d.headerRead && d.opcode == 8 && d.payloadLength == 0 && d.rx.status != Connect
  {
    if d.headerRead && d.payloadLength == 0 {
      EmptyPayload(cb, d);
    } else {
      Consumes(cb, d);
    }
  }

  lemma Consumes(cb: Callbacks, d: Decoder)
    requires (d.headerRead || d.input != []) && DecodeOnce(cb, d).again
    requires !(d.headerRead && d.payloadLength == 0)
    ensures |DecodeOnce(cb, d).d.input| < |d.input|
  {
    hide Dispatch, Unmask, FromBigEndian;
  }

  lemma EmptyPayload(cb: Callbacks, d: Decoder)
    requires d.headerRead && d.payloadLength == 0 && DecodeOnce(cb, d).again
    ensures DecodeOnce(cb, d).d.input == d.input
    ensures DecodeOnce(cb, d).d == d <==> d.opcode == 8 && d.rx.status != Connect
    ensures DecodeOnce(cb, d).d.headerRead ==> d.opcode == 8
    ensures d.opcode == 8 && d.rx.status == Connect ==> DecodeOnce(cb, d).d.rx.status != Connect
  {
    hide ReadHeader, Unmask;
    assert PayloadOf(d) == [] && d.rx.decodeBuf + PayloadOf(d) == d.rx.decodeBuf && d.input[0..] == d.input;
  }

  /** `decode` with the outcome `o` takes the events `logged` to `logged1` and ends in `d1`. */
  ghost predicate Ends(o: Outcome, logged: seq<Event>, d1: Decoder, logged1: seq<Event>, diverged: bool) {
    d1 == o.d && logged1 == logged + o.events && diverged == o.diverged
  }

  lemma EndsThen(a: Activation, o: Outcome, logged: seq<Event>)
    ensures forall d1, logged1, diverged :: Ends(o, logged + a.events, d1, logged1, diverged) ==>
      Ends(Outcome(a.d, a.events, false).Then(o), logged, d1, logged1, diverged)
  {
    assert logged + a.events + o.events == logged + (a.events + o.events);
  }

  lemma DecodeUnfold(cb: Callbacks, d: Decoder)
    requires d.headerRead || d.input != []
    ensures var a := DecodeOnce(cb, d);
      if !a.again then Decode(cb, d) == Outcome(a.d, a.events, false)
      else if a.d == d then Decode(cb, d) == Outcome(a.d, a.events, true)
      else Decode(cb, d) == Outcome(a.d, a.events, false).Then(Decode(cb, a.d))
  {}

  /** `parse`, once the handshake is over, on the input queue extended by `chunk`. */
  function Parse(cb: Callbacks, d: Decoder, chunk: Chunk): Outcome
  {
    var d1 := d.(input := d.input + chunk);
    if |d1.input| < d.wanted then Outcome(d1, [], false)
    else if d.rx.status == Connect || d.rx.status == Closing then Decode(cb, d1)
    else Outcome(d1, [], false)
  }

  /** `parse` on one chunk after another. */
  function ParseAll(cb: Callbacks, d: Decoder, chunks: seq<Chunk>): Outcome
    decreases |chunks|
  {
    if chunks == [] then Outcome(d, [], false)
    else
      var first := Parse(cb, d, chunks[0]);
      first.Then(ParseAll(cb, first.d, chunks[1..]))
  }
}
