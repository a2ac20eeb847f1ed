/**
  When the recursion of `decode` returns. A close frame keeps its header, so whatever follows it is
  taken for its payload once more; with an empty payload that never ends.
*/
module FramingTermination {
  import opened Bytes
  import opened Framing
  import opened FramingFrames

  // ---- Any complete frame is the wire form of a frame ------------------------------------------

  function FormOf(second: byte): LengthForm {
    if second % 128 == 126 then Medium else if second % 128 == 127 then Long else Short
  }

  /** The frame whose header was just read, with its payload at the front of the input. */
  function FrameRead(d: Decoder, form: LengthForm): Frame
    requires d.payloadLength <= |d.input|
  {
    Frame(d.fin, d.opcode, if d.masked then Some(d.maskKey) else None, PayloadOf(d), form)
  }

  /** What `ReadHeader` makes of a header that is complete. */
  lemma HeaderParts(d: Decoder)
    requires d.input != [] && ReadHeader(d).1 == Complete
    ensures |d.input| >= 2
    ensures var q, d1 := d.input, ReadHeader(d).0;
      var size := LengthEnd(q[1]);
      && |q| >= size + (if q[1] >= 128 then 4 else 0)
      && q[0] == (if d1.fin then 128 else 0) + d1.opcode && d1.opcode < 16
      && d1.masked == (q[1] >= 128)
      && (d1.masked ==> d1.maskKey == q[size..size + 4])
      && d1.payloadLength == (if size == 2 then q[1] % 128 else FromBigEndian(q[2..size]))
      && d1.input == q[size + if d1.masked then 4 else 0..]
  {
    hide FromBigEndian;
  }

  lemma LengthSpelled(second: byte, bs: seq<byte>, len: nat)
    requires |bs| == LengthEnd(second) - 2
    requires len == if bs == [] then second % 128 else FromBigEndian(bs)
    ensures FormOf(second) == Short ==> bs == [] && len < 126
    ensures FormOf(second) == Medium ==> len < 0x1_0000 && ToBigEndian(len, 2) == bs
    ensures FormOf(second) == Long ==> len < 0x1_0000_0000_0000_0000 && ToBigEndian(len, 8) == bs
  {
    BigEndianInverse(bs);
    assert Pow256(2) == 65536;
    assert Pow256(4) == 65536 * 65536;
    assert Pow256(6) == 65536 * 65536 * 65536;
    assert Pow256(8) == 0x1_0000_0000_0000_0000;
  }

  lemma HeaderOf(f: Frame, q: seq<byte>, size: nat)
    requires 2 <= size <= |q| && size == LengthEnd(q[1]) && f.form == FormOf(q[1])
    requires f.opcode < 16 && q[0] == (if f.fin then 128 else 0) + f.opcode && f.key.Some? == (q[1] >= 128)
    requires f.form == Short ==> |f.payload| == q[1] % 128 < 126
    requires f.form == Medium ==> |f.payload| < 0x1_0000 && ToBigEndian(|f.payload|, 2) == q[2..size]
    requires f.form == Long ==> |f.payload| < 0x1_0000_0000_0000_0000 && ToBigEndian(|f.payload|, 8) == q[2..size]
    ensures Encodable(f) && Header(f) == q[..size]
  {
    hide ToBigEndian;
    assert q[..size] == [q[0], q[1]] + q[2..size];
    if f.form == Short {
      assert q[2..size] == [];
    }
  }

  /** The header of the frame read is the header bytes. */
  lemma HeaderSpelled(d: Decoder)
    requires d.input != [] && ReadHeader(d).1 == Complete
    requires var d1 := ReadHeader(d).0; d1.payloadLength <= |d1.input|
    ensures |d.input| >= 2 && |d.input| >= LengthEnd(d.input[1])
    ensures var f := FrameRead(ReadHeader(d).0, FormOf(d.input[1])); Encodable(f) && Header(f) == d.input[..LengthEnd(d.input[1])]
  {
    HeaderParts(d);
    hide ReadHeader, Unmask, FromBigEndian, ToBigEndian, Header, Encodable;
    var q, d1 := d.input, ReadHeader(d).0;
    var size := LengthEnd(q[1]);
    LengthSpelled(q[1], q[2..size], d1.payloadLength);
    HeaderOf(FrameRead(d1, FormOf(q[1])), q, size);
  }

  lemma TwoSlices(q: seq<byte>, size: nat)
    requires size + 4 <= |q|
    ensures q == q[..size] + (q[size..size + 4] + q[size + 4..])
  {}

  lemma Regroup(head: seq<byte>, key: seq<byte>, raw: seq<byte>, rest: seq<byte>)
    ensures head + (key + (raw + rest)) == head + (key + raw) + rest
  {}

  /** Reading and writing are inverse this way round too: a complete frame is the wire form of what was read. */
  lemma WireOfRead(d: Decoder)
    requires d.input != [] && ReadHeader(d).1 == Complete
    requires var d1 := ReadHeader(d).0; d1.payloadLength <= |d1.input|
    ensures |d.input| >= 2
    ensures var d1 := ReadHeader(d).0;
      var f := FrameRead(d1, FormOf(d.input[1]));
      Encodable(f) && d.input == Wire(f) + d1.input[d1.payloadLength..]
  {
    hide ReadHeader, Unmask, FromBigEndian, ToBigEndian, Header, Encodable, FormOf, LengthEnd;
    HeaderParts(d);
    HeaderSpelled(d);
    var q, d1 := d.input, ReadHeader(d).0;
    var size, f := LengthEnd(q[1]), FrameRead(d1, FormOf(q[1]));
    var raw, rest := d1.input[..d1.payloadLength], d1.input[d1.payloadLength..];
    assert d1.input == raw + rest;
    if d1.masked {
      UnmaskTwice(raw, d1.maskKey);
      TwoSlices(q, size);
      Regroup(q[..size], d1.maskKey, raw, rest);
    } else {
      assert q == q[..size] + (raw + rest);
      Regroup(q[..size], [], raw, rest);
      assert [] + (raw + rest) == raw + rest && [] + raw == raw;
    }
  }

  // ---- Kept headers ----------------------------------------------------------------------------

  /** After a close frame its header is kept: the rest of the input is eaten in payload-sized bites. */
  lemma {:induction false} ClosedEats(cb: Callbacks, d: Decoder)
    requires d.headerRead && d.opcode == 8 && d.payloadLength > 0 && d.rx.status != Connect
    ensures var o := Decode(cb, d);
      && !o.diverged && o.events == []
      && o.d.headerRead && o.d.opcode == 8 && o.d.payloadLength == d.payloadLength && o.d.rx.status == d.rx.status
    decreases |d.input|
  {
    var a := DecodeOnce(cb, d);
    if a.again {
      ClosedEats(cb, a.d);
    }
  }

  /** An empty close frame with input behind it makes `decode` call itself in the same state for ever. */
  lemma ClosedSpins(cb: Callbacks, d: Decoder)
    requires d.headerRead && d.opcode == 8 && d.payloadLength == 0 && d.rx.status != Connect && d.input != []
    ensures DecodeOnce(cb, d).d == d && Decode(cb, d).diverged
  {
    assert PayloadOf(d) == [] && d.rx.decodeBuf + [] == d.rx.decodeBuf && d.input[0..] == d.input;
  }

  /** A close frame is never done with, and leaves no open connection. */
  lemma CloseKeepsHeader(cb: Callbacks, rx: Receiver, fin: bool, data: seq<byte>)
    ensures var h := Dispatch(cb, rx, fin, 8, data);
      && h.goesOn && !h.cleared && h.rx.status != Connect
      && (rx.status != Connect ==> h.rx.status == rx.status) && (rx.status == Connect ==> h.rx.status == Closed)
  {}

  /** Every other frame that `decode` goes on from is done with. */
  lemma GoingOnClears(cb: Callbacks, rx: Receiver, fin: bool, opcode: nat, data: seq<byte>)
    requires opcode != 8 && Dispatch(cb, rx, fin, opcode, data).goesOn
    ensures Dispatch(cb, rx, fin, opcode, data).cleared
  {}

  /** A close frame at the front of the input, whatever the status. */
  lemma CloseThenTail(cb: Callbacks, d: Decoder, f: Frame, tail: seq<byte>)
    requires !d.headerRead && Encodable(f) && f.opcode == 8 && d.input == Wire(f) + tail
    ensures Decode(cb, d).diverged <==> f.payload == [] && tail != []
  {
    hide Dispatch, ReadHeader;
    TakeFrame(cb, d, f, tail);
    CloseKeepsHeader(cb, d.rx, f.fin, f.payload);
    var a := DecodeOnce(cb, d);
    if tail != [] {
      if f.payload == [] {
        ClosedSpins(cb, a.d);
      } else {
        ClosedEats(cb, a.d);
      }
    }
  }

  // ---- The exact condition ---------------------------------------------------------------------

  /** Frames that are not close frames and that `decode` goes on from, one after the other. */
  ghost predicate Passes(cb: Callbacks, rx: Receiver, fs: seq<Frame>)
    decreases |fs|
  {
    fs != [] ==>
      var h := Dispatch(cb, rx, fs[0].fin, fs[0].opcode, fs[0].payload);
      fs[0].opcode != 8 && h.goesOn && Passes(cb, h.rx, fs[1..])
  }

  /** The input is frames that pass, a close frame, and more. */
  ghost predicate CloseBehind(cb: Callbacks, rx: Receiver, input: seq<byte>, fs: seq<Frame>, f: Frame, tail: seq<byte>) {
    && (forall g :: g in fs ==> Encodable(g)) && Passes(cb, rx, fs)
    && Encodable(f) && f.opcode == 8 && input == WireAll(fs) + (Wire(f) + tail)
  }

  /** An empty close frame and more, with nothing but frames that pass before it. */
  ghost predicate HangsOn(cb: Callbacks, rx: Receiver, input: seq<byte>) {
    exists fs, f, tail :: CloseBehind(cb, rx, input, fs, f, tail) && f.payload == [] && tail != []
  }

  /** Frames that pass leave `decode` where a close frame behind them decides. */
  lemma {:induction false} FirstCloseDecides(cb: Callbacks, d: Decoder, fs: seq<Frame>, f: Frame, tail: seq<byte>)
    requires !d.headerRead && CloseBehind(cb, d.rx, d.input, fs, f, tail)
    ensures d.input != [] && (Decode(cb, d).diverged <==> f.payload == [] && tail != [])
    decreases |fs|
  {
    hide DecodeOnce, Dispatch, Wire, Encodable;
    WireNonempty(f);
    if fs == [] {
      assert d.input == Wire(f) + tail;
      CloseThenTail(cb, d, f, tail);
    } else {
      var g := fs[0];
      var rest := WireAll(fs[1..]) + (Wire(f) + tail);
      assert d.input == Wire(g) + rest;
      WireNonempty(g);
      TakeFrame(cb, d, g, rest);
      GoingOnClears(cb, d.rx, g.fin, g.opcode, g.payload);
      FirstCloseDecides(cb, DecodeOnce(cb, d).d, fs[1..], f, tail);
    }
  }

  lemma WireNonempty(f: Frame)
    requires Encodable(f)
    ensures |Wire(f)| >= 2
  {}

  /** A recursion that never returns met an empty close frame on its way. */
  lemma {:induction false} DivergesBehind(cb: Callbacks, d: Decoder) returns (fs: seq<Frame>, f: Frame, tail: seq<byte>)
    requires !d.headerRead && d.input != [] && Decode(cb, d).diverged
    ensures CloseBehind(cb, d.rx, d.input, fs, f, tail) && f.payload == [] && tail != []
    decreases |d.input|
  {
    hide Dispatch, Wire, ReadHeader, Encodable;
    var d1 := ReadHeader(d).0;
    WireOfRead(d);
    var g := FrameRead(d1, FormOf(d.input[1]));
    var rest := d1.input[d1.payloadLength..];
    TakeFrame(cb, d, g, rest);
    var a := DecodeOnce(cb, d);
    WireNonempty(g);
    if g.opcode == 8 {
      fs, f, tail := [], g, rest;
      CloseThenTail(cb, d, g, rest);
      assert WireAll([]) + (Wire(g) + rest) == d.input;
    } else {
      GoingOnClears(cb, d.rx, g.fin, g.opcode, g.payload);
      fs, f, tail := DivergesBehind(cb, a.d);
      assert ([g] + fs)[1..] == fs;
      assert Wire(g) + WireAll(fs) + (Wire(f) + tail) == Wire(g) + (WireAll(fs) + (Wire(f) + tail));
      fs := [g] + fs;
    }
  }

  /**
    Termination. Between two frames, in any status and on any input at all, the recursion of `decode`
    does not return iff the input begins with frames that pass, then an empty close frame, then more.
    Without a close frame, or with a frame before it from which `decode` returns early, it returns.
  */
  lemma DivergesIff(cb: Callbacks, d: Decoder)
    requires !d.headerRead && d.input != []
    ensures Decode(cb, d).diverged <==> HangsOn(cb, d.rx, d.input)
  {
    if Decode(cb, d).diverged {
      var fs, f, tail := DivergesBehind(cb, d);
    }
    forall fs, f, tail | CloseBehind(cb, d.rx, d.input, fs, f, tail) && f.payload == [] && tail != []
      ensures Decode(cb, d).diverged
    {
      FirstCloseDecides(cb, d, fs, f, tail);
    }
  }

  /** Frames of which none is a close frame never make it hang, whether they pass or not. */
  lemma {:induction false} NoCloseReturns(cb: Callbacks, d: Decoder, fs: seq<Frame>)
    requires forall g :: g in fs ==> Encodable(g) && g.opcode != 8
    requires !d.headerRead && fs != [] && d.input == WireAll(fs)
    ensures d.input != [] && !Decode(cb, d).diverged
    decreases |fs|
  {
    hide DecodeOnce, Dispatch, Wire, Encodable;
    var g, rest := fs[0], WireAll(fs[1..]);
    WireNonempty(g);
    TakeFrame(cb, d, g, rest);
    if DecodeOnce(cb, d).again {
      GoingOnClears(cb, d.rx, g.fin, g.opcode, g.payload);
      NoCloseReturns(cb, DecodeOnce(cb, d).d, fs[1..]);
    }
  }

  /** A frame that is not gone on from shields `decode` from whatever follows it. */
  lemma {:induction false} EarlyReturnShields(cb: Callbacks, d: Decoder, fs: seq<Frame>, f: Frame, tail: seq<byte>)
    requires !d.headerRead && (forall g :: g in fs ==> Encodable(g)) && Passes(cb, d.rx, fs)
    requires Encodable(f) && d.input == WireAll(fs) + (Wire(f) + tail)
    requires !Dispatch(cb, Receive(cb, d.rx, fs).0, f.fin, f.opcode, f.payload).goesOn
    ensures d.input != [] && !Decode(cb, d).diverged
    decreases |fs|
  {
    hide DecodeOnce, Dispatch, Wire, Encodable;
    WireNonempty(f);
    if fs == [] {
      assert d.input == Wire(f) + tail;
      TakeFrame(cb, d, f, tail);
    } else {
      var g := fs[0];
      var rest := WireAll(fs[1..]) + (Wire(f) + tail);
      assert d.input == Wire(g) + rest;
      WireNonempty(g);
      TakeFrame(cb, d, g, rest);
      GoingOnClears(cb, d.rx, g.fin, g.opcode, g.payload);
      EarlyReturnShields(cb, DecodeOnce(cb, d).d, fs[1..], f, tail);
    }
  }

  /** With a header already read: that of a close frame decides by itself, any other one only passes on. */
  lemma DivergesFromHeaderIff(cb: Callbacks, d: Decoder)
    requires d.headerRead
    ensures d.opcode == 8 ==> (Decode(cb, d).diverged <==> d.payloadLength == 0 && d.input != [])
    ensures d.opcode != 8 && d.payloadLength > |d.input| ==> !Decode(cb, d).diverged
    ensures d.opcode != 8 && d.payloadLength <= |d.input| ==>
      var h, rest := Dispatch(cb, d.rx, d.fin, d.opcode, PayloadOf(d)), d.input[d.payloadLength..];
      Decode(cb, d).diverged <==> h.goesOn && rest != [] && HangsOn(cb, h.rx, rest)
  {
    hide Dispatch, ReadHeader, Unmask;
    if d.payloadLength <= |d.input| {
      var a := DecodeOnce(cb, d);
      if d.opcode == 8 {
        CloseKeepsHeader(cb, d.rx, d.fin, PayloadOf(d));
        assert d.payloadLength == 0 ==> d.input[d.payloadLength..] == d.input;
        if a.again && d.payloadLength == 0 {
          ClosedSpins(cb, a.d);
        } else if a.again {
          ClosedEats(cb, a.d);
        }
      } else if a.again {
        GoingOnClears(cb, d.rx, d.fin, d.opcode, PayloadOf(d));
        DivergesIff(cb, a.d);
      }
    }
  }

  // ---- Across calls of `parse` -----------------------------------------------------------------

  /**
    A close header kept while the connection is closing spans calls: some later call does not return
    iff its payload length is 0 and enough bytes for the gate arrive, `wanted` being what the length
    code in the header left there.
  */
  lemma {:induction false} KeptHeaderAcrossCalls(cb: Callbacks, d: Decoder, chunks: seq<Chunk>)
    requires d.headerRead && d.opcode == 8 && d.rx.status == Closing
    ensures ParseAll(cb, d, chunks).diverged <==>
      chunks != [] && d.payloadLength == 0 && |d.input| + |Concat(chunks)| >= d.wanted
    decreases |chunks|
  {
    if chunks != [] {
      var d1 := d.(input := d.input + chunks[0]);
      var o := Parse(cb, d, chunks[0]);
      assert |Concat(chunks)| == |chunks[0]| + |Concat(chunks[1..])|;
      if |d1.input| >= d.wanted && d.payloadLength == 0 {
        ClosedSpins(cb, d1);
      } else {
        if |d1.input| >= d.wanted {
          ClosedEats(cb, d1);
        }
        KeptHeaderAcrossCalls(cb, o.d, chunks[1..]);
      }
    }
  }

  /** Once the status is CLOSED, `parse` does nothing. */
  lemma {:induction false} ClosedIgnores(cb: Callbacks, d: Decoder, chunks: seq<Chunk>)
    requires d.rx.status == Closed
    ensures !ParseAll(cb, d, chunks).diverged && ParseAll(cb, d, chunks).events == []
    decreases |chunks|
  {
    if chunks != [] {
      ClosedIgnores(cb, Parse(cb, d, chunks[0]).d, chunks[1..]);
    }
  }

  /**
    A close frame that arrives by itself, and whatever arrives later: with the connection open it is
    harmless, but as the answer to our own close it makes a later call hang iff it is empty and as
    many bytes follow as its length code says, at least one.
  */
  lemma CloseThenCalls(cb: Callbacks, d: Decoder, f: Frame, chunk: Chunk, chunks: seq<Chunk>)
    requires !d.headerRead && d.wanted == 0 && d.input == [] && (d.rx.status == Connect || d.rx.status == Closing)
    requires Encodable(f) && f.opcode == 8 && chunk == Wire(f)
    ensures ParseAll(cb, d, [chunk] + chunks).diverged <==>
      d.rx.status == Closing && f.payload == [] && chunks != [] && |Concat(chunks)| >= LengthCode(f)
  {
    hide Dispatch, ReadHeader, Wire, ParseAll;
    var d1 := d.(input := d.input + chunk);
    assert d1.input == Wire(f) + [];
    TakeFrame(cb, d1, f, []);
    CloseKeepsHeader(cb, d.rx, f.fin, f.payload);
    var o := Parse(cb, d, chunk);
    FirstCall(cb, d, chunk, chunks);
    if d.rx.status == Connect {
      ClosedIgnores(cb, o.d, chunks);
    } else {
      KeptHeaderAcrossCalls(cb, o.d, chunks);
    }
  }

  lemma FirstCall(cb: Callbacks, d: Decoder, chunk: Chunk, chunks: seq<Chunk>)
    ensures var o := Parse(cb, d, chunk); ParseAll(cb, d, [chunk] + chunks) == o.Then(ParseAll(cb, o.d, chunks))
  {
    assert ([chunk] + chunks)[1..] == chunks;
  }

  /** A 126-byte ping closes the connection and is still gone on from: with an empty close frame behind it `decode` hangs. */
  lemma OversizePingThenClose(cb: Callbacks, d: Decoder, payload: seq<byte>, tail: seq<byte>)
    requires !d.headerRead && d.rx.status == Connect && |payload| == 126 && tail != []
    requires d.input == Wire(Frame(true, 9, None, payload, Medium)) + (Wire(Frame(true, 8, None, [], Short)) + tail)
    ensures Decode(cb, d).diverged && Receive(cb, d.rx, [Frame(true, 9, None, payload, Medium)]).0.status == Closing
  {
    hide Wire, ReadHeader, Decode;
    var ping, close := Frame(true, 9, None, payload, Medium), Frame(true, 8, None, [], Short);
    assert WireAll([ping]) == Wire(ping) + WireAll([]) == Wire(ping);
    assert [ping][1..] == [] && Passes(cb, Dispatch(cb, d.rx, true, 9, payload).rx, []);
    assert Receive(cb, Dispatch(cb, d.rx, true, 9, payload).rx, []).0.status == Closing;
    FirstCloseDecides(cb, d, [ping], close, tail);
  }
}
