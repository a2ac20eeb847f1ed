/**
  The frame-level half of the WebSocket connection class, proved against the functions in Framing.
  Calls on the TCP connection and on the user's callbacks are recorded in `trace`.
*/
module WebSocketConnectionModule {
  import opened Bytes
  import opened BufferModule
  import opened Framing

  class WebSocketConnection {
    const callbacks: Framing.Callbacks
    const outputBuf: Buffer
    const decodeBuf: Buffer
    var status: Framing.Status
    var fragmentedOpcode: nat
    var headerRead: bool
    var wanted: nat
    var masked: bool
    var payloadLength: nat
    var opcode: nat
    var isFin: bool
    var maskKey: Framing.Key
    ghost var trace: seq<Framing.Event>

    ghost predicate Valid()
      reads this, outputBuf, decodeBuf
    {
      outputBuf != decodeBuf && outputBuf.Valid() && decodeBuf.Valid()
    }

    /** What the opcode switch works on. */
    ghost function Rx(): Framing.Receiver
      requires Valid()
      reads this, outputBuf, decodeBuf
    {
      Framing.Receiver(status, fragmentedOpcode, decodeBuf.View(), outputBuf.View())
    }

    /** The whole decoder, `input` being the connection's read buffer. */
    ghost function State(input: Buffer): Framing.Decoder
      requires Valid() && input.Valid()
      reads this, outputBuf, decodeBuf, input
    {
      Framing.Decoder(headerRead, wanted, isFin, opcode, masked, payloadLength, maskKey, input.View(), Rx())
    }

    constructor (callbacks: Framing.Callbacks)
      ensures Valid() && this.callbacks == callbacks && trace == []
      ensures fresh(outputBuf) && fresh(decodeBuf)
      ensures Rx() == Framing.Receiver(Initial, 0, [], []) && !headerRead && wanted == 0
    {
      this.callbacks := callbacks;
      outputBuf := new Buffer(INITIAL_SIZE);
      decodeBuf := new Buffer(64);
      status, fragmentedOpcode, headerRead, wanted := Initial, 0, false, 0;
      masked, payloadLength, opcode, isFin, maskKey := false, 0, 0, false, [0, 0, 0, 0];
      trace := [];
    }

    // ---- Encoding ------------------------------------------------------------------------------

    method WriteHeader(len: nat, opcode: byte)
      requires Valid() && outputBuf.View() == [] && opcode < 16 && len < 0x1_0000_0000_0000_0000
      modifies outputBuf
      ensures Valid() && outputBuf.View() == Framing.HeaderBytes(len, opcode)
    {
      outputBuf.PutByte(0x80 + opcode);
      if len < 126 {
        outputBuf.PutByte(len);
      } else if len <= 0xffff {
        outputBuf.PutByte(126);
        outputBuf.PutUInt16(len);
      } else {
        outputBuf.PutByte(127);
        outputBuf.PutUInt64(len);
      }
    }

    /** Both overloads of `sendMessage` hand the same bytes to the TCP connection. */
    method SendMessage(data: seq<byte>, binary: bool)
      requires Valid() && outputBuf.View() == [] && |data| < 0x1_0000_0000_0000_0000
      modifies this`trace, outputBuf
      ensures Valid() && Rx() == old(Rx())
      ensures trace == old(trace) + [Sent(Framing.HeaderBytes(|data|, if binary then 2 else 1) + data)]
    {
      WriteHeader(|data|, if binary then 2 else 1);
      outputBuf.Write(data);
      var bytes := outputBuf.ReadString();
      trace := trace + [Sent(bytes)];
    }

    method SendControl(first: byte, message: seq<byte>)
      requires Valid() && |message| < 126
      modifies this`trace, outputBuf
      ensures Valid() && Rx() == old(Rx()).(output := [])
      ensures trace == old(trace) + [Sent(old(outputBuf.View()) + ([first, |message|] + message))]
    {
      ghost var before := outputBuf.View();
      outputBuf.PutByte(first);
      outputBuf.PutByte(|message|);
      outputBuf.Write(message);
      assert outputBuf.View() == before + ([first, |message|] + message);
      var bytes := outputBuf.ReadString();
      trace := trace + [Sent(bytes)];
    }

    method Ping(message: seq<byte>)
      requires Valid()
      modifies this`trace, this`status, outputBuf
      ensures Valid()
      ensures var (rx, events) := Framing.SendPing(old(Rx()), message);
        Rx() == rx && trace == old(trace) + events
    {
      if |message| >= 126 {
        Close(PROTOCOL_ERROR);
      } else {
        SendControl(0x89, message);
      }
    }

    method Pong(message: seq<byte>)
      requires Valid()
      modifies this`trace, this`status, outputBuf
      ensures Valid()
      ensures var (rx, events) := Framing.SendPong(old(Rx()), message);
        Rx() == rx && trace == old(trace) + events
    {
      if |message| >= 126 {
        Close(PROTOCOL_ERROR);
      } else {
        SendControl(0x8a, message);
      }
    }

    method Close(code: nat)
      requires Valid() && code < 0x1_0000
      modifies this`trace, this`status, outputBuf
      ensures Valid()
      ensures var (rx, events) := Framing.Close(old(Rx()), code);
        Rx() == rx && trace == old(trace) + events
    {
      if outputBuf.ReadableBytes() > 0 {
        outputBuf.Clear();
      }
      outputBuf.PutByte(0x88);
      outputBuf.PutByte(0x02);
      outputBuf.PutUInt16(code);
      assert outputBuf.View() == Framing.CloseFrame(code);
      assert Framing.CloseFrame(code)[..4] == Framing.CloseFrame(code);
      status := Closing;
      ghost var before := trace;
      if code != NORMAL_CLOSE {
        trace := trace + [StopRead];
      }
      trace := trace + [Sent(outputBuf.View()[..4]), CloseCalled(code)];
      assert trace == before + Framing.Close(old(Rx()), code).1;
    }

    // ---- Decoding ------------------------------------------------------------------------------

    method ClearDecodeStatus()
      modifies this`wanted, this`headerRead
      ensures wanted == 0 && !headerRead
    {
      wanted := 0;
      headerRead := false;
    }

    /** The header half of `decode`: a header that is not all there yet is put back untouched. */
    method ReadHeader(input: Buffer) returns (outcome: Framing.HeaderOutcome)
      requires Valid() && input.Valid() && input != outputBuf && input != decodeBuf
      requires !headerRead && input.View() != []
      modifies this`wanted, this`masked, this`payloadLength, this`opcode, this`isFin, this`maskKey, input`readIndex
      ensures Valid() && input.Valid()
      ensures (State(input), outcome) == Framing.ReadHeader(old(State(input)))
    {
      hide Framing.ReadRest, FromBigEndian;
      ghost var d, q := State(input), input.View();
      var first := input.ReadTypedNumber(1);
      if first / 16 % 8 != 0 {
        return BadRsv;
      }
      isFin := first >= 128;
      opcode := first % 16;
      if input.ReadableBytes() < 1 {
        wanted := 2;
        input.Unread(1);
        assert input.View() == q;
        return Partial;
      }
      RestIgnoresInput(
        d.(fin := isFin, opcode := opcode, masked := q[1] >= 128, payloadLength := q[1] % 128, wanted := q[1] % 128),
        input.View(), q);
      outcome := ReadSecond(input, q);
      assert Framing.ReadHeader(d) == (State(input), outcome);
    }

    /** The second header byte and what follows it. */
    method ReadSecond(input: Buffer, ghost q: seq<byte>) returns (outcome: Framing.HeaderOutcome)
      requires Valid() && input.Valid() && input != outputBuf && input != decodeBuf
      requires |q| >= 2 && input.readIndex >= 1 && q == input.buf[input.readIndex - 1..input.writeIndex]
      requires !headerRead
      modifies this`wanted, this`masked, this`payloadLength, this`maskKey, input`readIndex
      ensures Valid() && input.Valid()
      ensures (State(input), outcome) == Framing.ReadRest(
        old(State(input)).(masked := q[1] >= 128, payloadLength := q[1] % 128, wanted := q[1] % 128), q)
    {
      ghost var d := State(input);
      var second := input.ReadTypedNumber(1);
      assert second == q[1] && input.View() == q[2..];
      masked := second >= 128;
      payloadLength := second % 128;
      wanted := payloadLength;
      outcome := ReadLengthAndKey(input, q);
    }

    /** The rest of the header, once its first two bytes are read; `q` is the input they were read from. */
    method ReadLengthAndKey(input: Buffer, ghost q: seq<byte>) returns (outcome: Framing.HeaderOutcome)
      requires Valid() && input.Valid() && input != outputBuf && input != decodeBuf
      requires |q| >= 2 && input.readIndex >= 2 && q == input.buf[input.readIndex - 2..input.writeIndex]
      requires !headerRead && masked == (q[1] >= 128) && payloadLength == wanted == q[1] % 128
      modifies this`wanted, this`payloadLength, this`maskKey, input`readIndex
      ensures Valid() && input.Valid()
      ensures (State(input), outcome) == Framing.ReadRest(old(State(input)), q)
    {
      hide FromBigEndian;
      var readSize;
      outcome, readSize := ReadLength(input, q);
      if outcome == Complete && masked {
        if |q| >= readSize + 4 {
          SliceTwice(q, readSize, 4);
        }
        if input.ReadableBytes() < 4 {
          wanted := readSize + 4;
          input.Unread(readSize);
          return Partial;
        }
        maskKey := input.Read(4);
      }
    }

    /** The extended payload length, if there is one. */
    method ReadLength(input: Buffer, ghost q: seq<byte>) returns (outcome: Framing.HeaderOutcome, readSize: nat)
      requires Valid() && input.Valid() && input != outputBuf && input != decodeBuf
      requires |q| >= 2 && input.readIndex >= 2 && q == input.buf[input.readIndex - 2..input.writeIndex]
      requires payloadLength == q[1] % 128
      modifies this`wanted, this`payloadLength, input`readIndex
      ensures Valid() && input.Valid() && readSize <= input.readIndex + if outcome == Partial then readSize else 0
      ensures var size := Framing.LengthEnd(q[1]);
        if |q| < size then outcome == Partial && wanted == size && payloadLength == old(payloadLength) && input.View() == q
        else
          && outcome == Complete && readSize == size && wanted == old(wanted)
          && payloadLength == (if size == 2 then old(payloadLength) else FromBigEndian(q[2..size]))
          && input.View() == q[size..] && input.readIndex == old(input.readIndex) - 2 + size
    {
      readSize := 2;
      if payloadLength == 126 {
        if input.ReadableBytes() < 2 {
          wanted := 4;
          input.Unread(readSize);
          return Partial, readSize;
        }
        payloadLength := input.ReadTypedNumber(2);
        readSize := readSize + 2;
      } else if payloadLength == 127 {
        if input.ReadableBytes() < 8 {
          wanted := 10;
          input.Unread(readSize);
          return Partial, readSize;
        }
        payloadLength := input.ReadTypedNumber(8);
        readSize := readSize + 8;
      }
      assert q[2..readSize] == q[2..][..readSize - 2] && input.View() == q[readSize..];
      outcome := Complete;
    }

    /** XOR the bytes behind the first `origin` ones of the decode buffer with the masking key, in place. */
    method UnmaskInPlace(origin: nat)
      requires Valid() && origin <= |decodeBuf.View()|
      modifies decodeBuf`buf
      ensures Valid()
      ensures decodeBuf.View() == old(decodeBuf.View())[..origin] + Framing.Unmask(old(decodeBuf.View())[origin..], maskKey)
    {
      ghost var was := decodeBuf.View();
      ghost var data := Framing.Unmask(was[origin..], maskKey);
      var end := decodeBuf.ReadableBytes();
      var it := origin;
      while it < end
        invariant origin <= it <= end == |was|
        invariant Valid() && decodeBuf.View() == was[..origin] + data[..it - origin] + was[it..]
      {
        var idx := it - origin;
        decodeBuf.Poke(it, Xor(decodeBuf.View()[it], maskKey[idx % 4]));
        MaskOneMore(was, data, origin, it);
        it := it + 1;
      }
      assert data[..end - origin] == data && was[end..] == [];
    }

    /**
      `decode`. The result says that the original's recursion would never return: the next
      activation would start from the very state this one started from.
    */
    method Decode(input: Buffer) returns (diverged: bool)
      requires Valid() && input.Valid() && input != outputBuf && input != decodeBuf
      requires headerRead || input.View() != []
      modifies this, outputBuf, decodeBuf, input
      ensures Valid() && input.Valid()
      ensures Framing.Ends(Framing.Decode(callbacks, old(State(input))), old(trace), State(input), trace, diverged)
      decreases |input.View()|, headerRead, status == Connect
    {
      ghost var d, logged := State(input), trace;
      var fromHeader, openBefore := headerRead, status == Connect;
      var again := Activate(input);
      Framing.DecodeUnfold(callbacks, d);
      if !again {
        return false;
      }
      Framing.StuckIff(callbacks, d);
      if fromHeader && opcode == 8 && payloadLength == 0 && !openBefore {
        return true;
      }
      Framing.AgainDescends(callbacks, d);
      ghost var a := Framing.DecodeOnce(callbacks, d);
      Framing.EndsThen(a, Framing.Decode(callbacks, a.d), logged);
      diverged := Decode(input);
    }

    /** The body of `decode` up to its recursive call. */
    method Activate(input: Buffer) returns (again: bool)
      requires Valid() && input.Valid() && input != outputBuf && input != decodeBuf
      requires headerRead || input.View() != []
      modifies this, outputBuf, decodeBuf, input
      ensures Valid() && input.Valid()
      ensures var a := Framing.DecodeOnce(callbacks, old(State(input)));
        State(input) == a.d && trace == old(trace) + a.events && again == a.again
      ensures old(headerRead) ==> opcode == old(opcode) && payloadLength == old(payloadLength)
    {
      hide Framing.ReadHeader;
      if !headerRead {
        var outcome := ReadHeader(input);
        if outcome == BadRsv {
          Close(PROTOCOL_ERROR);
          return false;
        }
        if outcome == Partial {
          return false;
        }
      }
      headerRead := true;
      if payloadLength > input.ReadableBytes() {
        wanted := payloadLength;
        return false;
      }
      var goesOn := TakePayload(input);
      return goesOn && input.ReadableBytes() > 0;
    }

    /** The payload half of `decode`, for a payload that is all there. */
    method TakePayload(input: Buffer) returns (goesOn: bool)
      requires Valid() && input.Valid() && input != outputBuf && input != decodeBuf
      requires headerRead && payloadLength <= |input.View()|
      modifies this`trace, this`status, this`fragmentedOpcode, this`headerRead, this`wanted, outputBuf, decodeBuf, input`readIndex
      ensures Valid() && input.Valid()
      ensures var a := Framing.TakePayload(callbacks, old(State(input)));
        && State(input) == a.d && trace == old(trace) + a.events
        && a.again == (goesOn && input.View() != [])
    {
      ghost var d := State(input);
      ghost var data := Framing.PayloadOf(d);
      ghost var before := decodeBuf.View();
      var originSize := decodeBuf.ReadableBytes();
      decodeBuf.WriteFrom(input, payloadLength);
      if masked {
        UnmaskInPlace(originSize);
        assert (before + d.input[..payloadLength])[originSize..] == d.input[..payloadLength];
      }
      assert decodeBuf.View() == before + data;
      goesOn := Dispatch(originSize, before, data);
    }

    /** The opcode switch, with `data` buffered behind the first `originSize` bytes, `before`. */
    method Dispatch(originSize: nat, ghost before: seq<byte>, ghost data: seq<byte>) returns (goesOn: bool)
      requires Valid() && headerRead && originSize == |before| && |data| == payloadLength
      requires decodeBuf.View() == before + data
      modifies this`trace, this`status, this`fragmentedOpcode, this`headerRead, this`wanted, outputBuf, decodeBuf
      ensures Valid()
      ensures var h := Framing.Dispatch(callbacks, old(Rx()).(decodeBuf := before), isFin, opcode, data);
        && Rx() == h.rx && trace == old(trace) + h.events && goesOn == h.goesOn
        && headerRead == !h.cleared && wanted == if h.cleared then 0 else old(wanted)
    {
      goesOn := true;
      match opcode {
        case 0 =>
          if fragmentedOpcode == 0 {
            Close(PROTOCOL_ERROR);
            return false;
          }
          if isFin {
            if callbacks.message {
              if fragmentedOpcode == 1 || fragmentedOpcode == 2 {
                var message := decodeBuf.ReadString();
                trace := trace + [Message(message, fragmentedOpcode == 2)];
              }
            } else {
              decodeBuf.Retrieve(decodeBuf.ReadableBytes());
            }
            fragmentedOpcode := 0;
          }
          ClearDecodeStatus();
        case 1 =>
          goesOn := DispatchData();
        case 2 =>
          goesOn := DispatchData();
        case 8 =>
          if status == Connect {
            Close(NORMAL_CLOSE);
            status := Closed;
            trace := trace + [TcpClose];
          }
        case 9 =>
          goesOn := DispatchControl(originSize, before, data);
        case 10 =>
          goesOn := DispatchControl(originSize, before, data);
        case _ =>
          Close(PROTOCOL_ERROR);
          return false;
      }
    }

    /** Ping and pong frames. */
    method DispatchControl(originSize: nat, ghost before: seq<byte>, ghost data: seq<byte>) returns (goesOn: bool)
      requires Valid() && headerRead && originSize == |before| && |data| == payloadLength
      requires decodeBuf.View() == before + data && (opcode == 9 || opcode == 10)
      modifies this`trace, this`status, this`headerRead, this`wanted, outputBuf, decodeBuf
      ensures Valid()
      ensures var h := Framing.Dispatch(callbacks, old(Rx()).(decodeBuf := before), isFin, opcode, data);
        && Rx() == h.rx && trace == old(trace) + h.events && goesOn == h.goesOn
        && headerRead == !h.cleared && wanted == if h.cleared then 0 else old(wanted)
    {
      if !isFin {
        Close(PROTOCOL_ERROR);
        return false;
      }
      var payload := decodeBuf.View()[originSize..];
      assert payload == data;
      if opcode == 9 {
        if callbacks.ping {
          trace := trace + [Event.Ping(payload)];
        }
        Pong(payload);
      } else if callbacks.pong {
        trace := trace + [Event.Pong(payload)];
      }
      Untake(originSize, before, data);
      return true;
    }

    /** The payload is taken back unless the buffer was empty. */
    method Untake(originSize: nat, ghost before: seq<byte>, ghost data: seq<byte>)
      requires Valid() && originSize == |before| && |data| == payloadLength && decodeBuf.View() == before + data
      modifies this`headerRead, this`wanted, decodeBuf
      ensures Valid() && !headerRead && wanted == 0
      ensures Rx() == Framing.Trimmed(old(Rx()), before, data)
    {
      if originSize != 0 {
        decodeBuf.Unwrite(payloadLength);
        assert decodeBuf.View() == before;
      } else {
        assert decodeBuf.View() == data;
      }
      ClearDecodeStatus();
    }

    method DispatchData() returns (goesOn: bool)
      requires Valid() && headerRead && (opcode == 1 || opcode == 2)
      modifies this`trace, this`status, this`fragmentedOpcode, this`headerRead, this`wanted, outputBuf, decodeBuf
      ensures Valid()
      ensures var h := Framing.DataFrame(callbacks, old(Rx()), isFin, opcode);
        && Rx() == h.rx && trace == old(trace) + h.events && goesOn == h.goesOn
        && headerRead == !h.cleared && wanted == if h.cleared then 0 else old(wanted)
    {
      if fragmentedOpcode != 0 {
        Close(PROTOCOL_ERROR);
        return false;
      }
      if isFin {
        var message := decodeBuf.ReadString();
        if callbacks.message {
          trace := trace + [Message(message, opcode == 2)];
        }
      } else {
        fragmentedOpcode := opcode;
      }
      ClearDecodeStatus();
      return true;
    }

    /** `parse`, once the handshake is over, after `chunk` was appended to the read buffer. */
    method Parse(input: Buffer, ghost chunk: Framing.Chunk, ghost before: seq<byte>) returns (diverged: bool)
      requires Valid() && input.Valid() && input != outputBuf && input != decodeBuf
      requires status != Initial && input.View() == before + chunk
      modifies this, outputBuf, decodeBuf, input
      ensures Valid() && input.Valid()
      ensures var o := Framing.Parse(callbacks, old(State(input)).(input := before), chunk);
        Framing.Ends(o, old(trace), State(input), trace, diverged)
    {
      if input.ReadableBytes() < wanted {
        return false;
      }
      if status == Connect || status == Closing {
        diverged := Decode(input);
      } else {
        diverged := false;
      }
    }
  }

  lemma MaskOneMore(was: seq<byte>, data: seq<byte>, origin: nat, it: nat)
    requires origin <= it < |was| && |data| == |was| - origin
    ensures (was[..origin] + data[..it - origin] + was[it..])[it := data[it - origin]]
      == was[..origin] + data[..it + 1 - origin] + was[it + 1..]
  {}
}
