/** Which bytes make the decoder of an open connection do nothing that can be seen from outside. */
module FramingSilence {
  import opened Bytes
  import opened Framing
  import opened FramingFrames
  import opened FramingTermination

  /** A frame that is in order, `kind` being the opcode of the message in the making, and tells nobody. */
  predicate SilentFrame(cb: Callbacks, kind: nat, fin: bool, opcode: nat) {
    if opcode == 10 then fin && !cb.pong
    else if opcode == 0 then kind != 0 && !(fin && cb.message)
    else (opcode == 1 || opcode == 2) && kind == 0 && !(fin && cb.message)
  }

  function NextKind(kind: nat, fin: bool, opcode: nat): nat {
    if opcode >= 8 then kind else if fin then 0 else if opcode == 0 then kind else opcode
  }

  predicate Silent(cb: Callbacks, kind: nat, fs: seq<Frame>)
    decreases |fs|
  {
    fs != [] ==>
      SilentFrame(cb, kind, fs[0].fin, fs[0].opcode) && Silent(cb, NextKind(kind, fs[0].fin, fs[0].opcode), fs[1..])
  }

  /** Where the payload begins, by the second byte of a header. */
  function HeaderEnd(second: byte): nat {
    LengthEnd(second) + if second >= 128 then 4 else 0
  }

  /** A proper part of a frame, with no reserved bit set; it may be nothing. */
  predicate Unfinished(q: seq<byte>) {
    q != [] ==>
      && q[0] / 16 % 8 == 0
      && (|q| >= 2 && |q| >= HeaderEnd(q[1]) ==>
            |q| - HeaderEnd(q[1]) < if LengthEnd(q[1]) == 2 then q[1] % 128 else FromBigEndian(q[2..LengthEnd(q[1])]))
  }

  /** The bytes are silent frames and an unfinished one. */
  ghost predicate SilentBytes(cb: Callbacks, kind: nat, q: seq<byte>) {
    exists fs, rest :: SilentParts(cb, kind, q, fs, rest)
  }

  ghost predicate SilentParts(cb: Callbacks, kind: nat, q: seq<byte>, fs: seq<Frame>, rest: seq<byte>) {
    (forall f :: f in fs ==> Encodable(f)) && q == WireAll(fs) + rest && Silent(cb, kind, fs) && Unfinished(rest)
  }

  lemma DispatchSilent(cb: Callbacks, rx: Receiver, fin: bool, opcode: nat, data: seq<byte>)
    requires rx.status == Connect && rx.fragmentedOpcode <= 2
    ensures var h := Dispatch(cb, rx, fin, opcode, data);
      && (h.events == [] <==> SilentFrame(cb, rx.fragmentedOpcode, fin, opcode))
      && (h.events == [] ==>
            && h.goesOn && h.cleared && h.rx.status == Connect && h.rx.fragmentedOpcode <= 2
            && h.rx.fragmentedOpcode == NextKind(rx.fragmentedOpcode, fin, opcode))
  {}

  /** How reading a header ends, by its bytes. */
  lemma HeaderOutcome(d: Decoder)
    requires d.input != []
    ensures var q, outcome := d.input, ReadHeader(d).1;
      && (outcome == BadRsv <==> q[0] / 16 % 8 != 0)
      && (outcome == Complete <==> q[0] / 16 % 8 == 0 && |q| >= 2 && |q| >= HeaderEnd(q[1]))
  {
    hide FromBigEndian;
  }

  /** What is unfinished makes `decode` wait, and nothing else makes it wait. */
  lemma WaitsIff(cb: Callbacks, d: Decoder)
    requires !d.headerRead && d.input != []
    ensures var a, (d1, outcome) := DecodeOnce(cb, d), ReadHeader(d);
      && (Unfinished(d.input) <==> outcome == Partial || (outcome == Complete && d1.payloadLength > |d1.input|))
      && (Unfinished(d.input) ==> a.events == [] && !a.again)
      && (outcome == BadRsv ==> a.events != [])
  {
    hide ReadHeader, FromBigEndian, Dispatch;
    HeaderOutcome(d);
    if ReadHeader(d).1 == Complete {
      HeaderParts(d);
    }
  }

  lemma {:induction false} SilentIsSilent(cb: Callbacks, d: Decoder, fs: seq<Frame>, rest: seq<byte>)
    requires !d.headerRead && d.rx.status == Connect && d.rx.fragmentedOpcode <= 2 && d.input != []
    requires SilentParts(cb, d.rx.fragmentedOpcode, d.input, fs, rest)
    ensures Decode(cb, d).events == []
    decreases |fs|
  {
    hide Dispatch, Wire, Encodable, DecodeOnce, Unfinished;
    DecodeUnfold(cb, d);
    if fs == [] {
      assert d.input == rest;
      WaitsIff(cb, d);
    } else {
      var f, tail := fs[0], WireAll(fs[1..]) + rest;
      assert d.input == Wire(f) + tail;
      TakeFrame(cb, d, f, tail);
      DispatchSilent(cb, d.rx, f.fin, f.opcode, f.payload);
      var a := DecodeOnce(cb, d);
      WireNonempty(f);
      if tail != [] {
        SilentIsSilent(cb, a.d, fs[1..], rest);
      }
    }
  }

  lemma {:induction false} OnlySilentIs(cb: Callbacks, d: Decoder) returns (fs: seq<Frame>, rest: seq<byte>)
    requires !d.headerRead && d.rx.status == Connect && d.rx.fragmentedOpcode <= 2 && d.input != []
    requires Decode(cb, d).events == []
    ensures SilentParts(cb, d.rx.fragmentedOpcode, d.input, fs, rest)
    decreases |d.input|
  {
    hide Dispatch, Wire, Encodable, DecodeOnce, Unfinished, ReadHeader;
    DecodeUnfold(cb, d);
    WaitsIff(cb, d);
    fs, rest := [], d.input;
    assert WireAll([]) + d.input == d.input;
    if !Unfinished(d.input) {
      var d1 := ReadHeader(d).0;
      WireOfRead(d);
      var f, tail := FrameRead(d1, FormOf(d.input[1])), d1.input[d1.payloadLength..];
      TakeFrame(cb, d, f, tail);
      DispatchSilent(cb, d.rx, f.fin, f.opcode, f.payload);
      WireNonempty(f);
      var fs1, rest1 := [], [];
      if tail != [] {
        fs1, rest1 := OnlySilentIs(cb, DecodeOnce(cb, d).d);
      } else {
        NothingUnfinished();
        assert WireAll(fs1) + rest1 == tail;
      }
      fs, rest := [f] + fs1, rest1;
      assert fs[1..] == fs1 && WireAll(fs) == Wire(f) + WireAll(fs1);
      assert Wire(f) + WireAll(fs1) + rest1 == Wire(f) + (WireAll(fs1) + rest1);
      assert Silent(cb, d.rx.fragmentedOpcode, fs);
    }
  }

  lemma NothingUnfinished()
    ensures Unfinished([])
  {}

  /** On any bytes at all, an open connection between two frames makes no event iff they are silent frames and an unfinished one. */
  lemma SilentIff(cb: Callbacks, d: Decoder)
    requires !d.headerRead && d.rx.status == Connect && d.rx.fragmentedOpcode <= 2 && d.input != []
    ensures Decode(cb, d).events == [] <==> SilentBytes(cb, d.rx.fragmentedOpcode, d.input)
  {
    if Decode(cb, d).events == [] {
      var fs, rest := OnlySilentIs(cb, d);
    }
    forall fs, rest | SilentParts(cb, d.rx.fragmentedOpcode, d.input, fs, rest)
      ensures Decode(cb, d).events == []
    {
      SilentIsSilent(cb, d, fs, rest);
    }
  }

  lemma NothingSilent(cb: Callbacks, kind: nat)
    ensures SilentBytes(cb, kind, [])
  {
    NothingUnfinished();
    assert SilentParts(cb, kind, [], [], []);
  }
}
