/** Bodies: every byte is delivered, in order, and `message_complete` comes once, behind the last one. */
module HttpBody {
  import opened Bytes
  import opened HttpTypes
  import opened HttpStep
  import opened HttpRun
  import opened HttpFeed
  import opened HttpLengths
  import opened HttpHeaders
  import opened HttpHead

  /** The body bytes delivered by the callbacks. */
  function BodyOf(trace: seq<Event>): seq<byte> {
    if trace == [] then []
    else
      var e := trace[|trace| - 1];
      BodyOf(trace[..|trace| - 1]) + if e.Data? && e.kind == Body then e.bytes else []
  }

  /** How often `message_complete` was called. */
  function Completions(trace: seq<Event>): nat {
    if trace == [] then 0
    else Completions(trace[..|trace| - 1]) + if trace[|trace| - 1].MessageComplete? then 1 else 0
  }

  /** The bodies of the messages completed so far, and the body bytes delivered since. */
  datatype Ledger = Ledger(bodies: seq<seq<byte>>, open: seq<byte>)

  function Book(l: Ledger, e: Event): Ledger {
    match e
    case Data(Body, bytes) => l.(open := l.open + bytes)
    case MessageComplete => Ledger(l.bodies + [l.open], [])
    case _ => l
  }

  function LedgerOf(trace: seq<Event>): Ledger {
    if trace == [] then Ledger([], []) else Book(LedgerOf(trace[..|trace| - 1]), trace[|trace| - 1])
  }

  lemma LedgerEmit(trace: seq<Event>, e: Event)
    ensures LedgerOf(Emit(trace, e)) == Book(LedgerOf(trace), e)
  {
    var t := Emit(trace, e);
    if e.Data? && trace != [] && trace[|trace| - 1].Data? && trace[|trace| - 1].kind == e.kind {
      assert t[..|t| - 1] == trace[..|trace| - 1];
      var l := LedgerOf(trace[..|trace| - 1]);
      assert l.open + trace[|trace| - 1].bytes + e.bytes == l.open + (trace[|trace| - 1].bytes + e.bytes);
    } else {
      assert t[..|t| - 1] == trace;
    }
  }

  /** The ledger accounts for every body byte and every completion. */
  lemma {:induction false} LedgerBalances(trace: seq<Event>)
    ensures BodyOf(trace) == Concat(LedgerOf(trace).bodies) + LedgerOf(trace).open
    ensures Completions(trace) == |LedgerOf(trace).bodies|
  {
    if trace != [] {
      var l, e := LedgerOf(trace[..|trace| - 1]), trace[|trace| - 1];
      LedgerBalances(trace[..|trace| - 1]);
      if e.MessageComplete? {
        ConcatAppend(l.bodies, [l.open]);
        assert Concat([l.open]) == l.open + Concat([]) == l.open;
      } else if e.Data? && e.kind == Body {
        assert Concat(l.bodies) + l.open + e.bytes == Concat(l.bodies) + (l.open + e.bytes);
      }
    }
  }

  // ---- Body bytes ------------------------------------------------------------------------------

  function BodyTrace(trace: seq<Event>, d: seq<byte>): seq<Event> {
    if d == [] then trace else Emit(trace, Data(Body, d))
  }

  /** The parser after `i` bytes of a body part. */
  function InBody(q: Parser, i: nat): Parser
    requires i <= q.contentLength
  {
    q.(contentLength := q.contentLength - i,
       state := if q.state == ChunkData && i == q.contentLength then ChunkDataAlmostDone else q.state)
  }

  lemma BodyNext(q: GoodParser, trace: seq<Event>, n: nat, d: seq<byte>, i: nat)
    requires BodyState(q.state) && i < |d| && i < q.contentLength && (q.state == BodyIdentity ==> i + 1 < q.contentLength)
    requires Good(InBody(q, i))
    ensures Good(InBody(q, i + 1))
    ensures Advance(Live(InBody(q, i), BodyTrace(trace, d[..i]), n + i), d[i])
      == Live(InBody(q, i + 1), BodyTrace(trace, d[..i + 1]), n + i + 1)
  {
    hide Arm, Advance, Emit, EmitAll, MethodString, Good;
    var q1, t := InBody(q, i), BodyTrace(trace, d[..i]);
    BodyArmAt(q1, d[i]);
    TakesUncounted(q1, t, n + i, d[i], InBody(q, i + 1), Mark(Body), []);
    assert OwnData(Mark(Body), d[i]) + [] == [Data(Body, [d[i]])];
    EmitAllOne(t, Data(Body, [d[i]]));
    BodyTraceMore(trace, d, i);
  }

  lemma BodyTraceMore(trace: seq<Event>, d: seq<byte>, i: nat)
    requires i < |d|
    ensures Emit(BodyTrace(trace, d[..i]), Data(Body, [d[i]])) == BodyTrace(trace, d[..i + 1])
  {
    assert d[..i + 1] == d[..i] + [d[i]];
    if i > 0 {
      EmitData(trace, Body, d[..i], [d[i]]);
    } else {
      assert d[..1] == [d[0]];
    }
  }

  lemma {:induction false} BodyRun(q: GoodParser, trace: seq<Event>, n: nat, d: seq<byte>, i: nat)
    requires BodyState(q.state) && i <= |d| && i <= q.contentLength && (q.state == BodyIdentity ==> i < q.contentLength)
    ensures Good(InBody(q, i)) && Upto(Live(q, trace, n), d, i) == Live(InBody(q, i), BodyTrace(trace, d[..i]), n + i)
  {
    hide Advance, Emit, MethodString, Good;
    if i > 0 {
      BodyRun(q, trace, n, d, i - 1);
      UptoStep(Live(q, trace, n), d, i - 1);
      hide InBody, BodyTrace;
      BodyNext(q, trace, n, d, i - 1);
    } else {
      BodyLeft(q);
    }
  }

  /** A body of Content-Length bytes: they are the body, and behind the last one the message is complete. */
  lemma IdentityRead(q: GoodParser, trace: seq<Event>, n: nat, d: seq<byte>)
    requires q.state == BodyIdentity && |d| == q.contentLength
    ensures var q1 := q.(contentLength := 0, state := NewMessage(q));
      var t := Emit(Emit(trace, Data(Body, d)), MessageComplete);
      Good(q1) && Over(Live(q, trace, n), d) == if q.upgrade then Left(q1, t, n + |d|) else Live(q1, t, n + |d|)
  {
    hide Arm, Advance, Emit, MethodString, Good;
    BodyLeft(q);
    var k := |d| - 1;
    BodyRun(q, trace, n, d, k);
    UptoStep(Live(q, trace, n), d, k);
    var q1, t := InBody(q, k), BodyTrace(trace, d[..k]);
    BodyArmAt(q1, d[k]);
    EndsMessage(q1, t, n + k, d[k], q1.(contentLength := 0, state := MessageDone), Data(Body, [d[k]]));
    assert d == d[..k] + [d[k]];
    if k > 0 {
      EmitData(trace, Body, d[..k], [d[k]]);
    } else {
      assert d == [d[k]];
    }
  }

  // ---- Chunks ----------------------------------------------------------------------------------

  /** A chunk of section 4.1 of RFC 7230: the digits of its size, extensions and the data. */
  datatype Chunk = Chunk(size: seq<byte>, extensions: seq<byte>, data: seq<byte>)

  predicate LegalSize(c: Chunk) {
    && c.size != [] && SizeDigits(c.size) && HexValue(c.size[..|c.size| - 1]) <= HEX_LIMIT
    && (c.extensions != [] ==> c.extensions[0] == 59 || c.extensions[0] == SP) && CR !in c.extensions
    && |c.size| + |c.extensions| + 2 <= MAX_HEADER_SIZE
    && HexValue(c.size) == |c.data|
  }

  function SizeLine(c: Chunk): seq<byte> {
    c.size + c.extensions + [CR, LF]
  }

  function ChunkWire(c: Chunk): seq<byte> {
    SizeLine(c) + c.data + [CR, LF]
  }

  /** A byte of a chunk extension, or the one that begins it. */
  lemma ExtensionArmAt(q: Parser, ch: byte)
    requires (q.state == ChunkParameters && ch != CR) || (q.state == ChunkSize && (ch == 59 || ch == SP))
    ensures Arm(q, ch) == Next(q.(state := ChunkParameters), NoMark, [])
  {
    ChunkArmAt(q, ch);
  }

  lemma {:induction false} ExtensionRun(q: GoodParser, trace: seq<Event>, n: nat, e: seq<byte>, i: nat)
    requires q.state == ChunkSize && 1 <= i <= |e| && (e[0] == 59 || e[0] == SP) && CR !in e && Room(q, i)
    ensures var q1 := q.(state := ChunkParameters, nread := q.nread + i);
      Good(q1) && Upto(Live(q, trace, n), e, i) == Live(q1, trace, n + i)
  {
    hide Arm, Advance, Emit, MethodString, Good;
    var start := Live(q, trace, n);
    UptoStep(start, e, i - 1);
    if i == 1 {
      assert Upto(start, e, 0) == start;
      var q1 := q.(nread := q.nread + 1);
      ExtensionArmAt(q1, e[0]);
      TakesQuietly(q, trace, n, e[0], q1.(state := ChunkParameters));
    } else {
      ExtensionRun(q, trace, n, e, i - 1);
      var q1 := q.(state := ChunkParameters, nread := q.nread + i - 1);
      var q2 := q1.(nread := q.nread + i);
      ExtensionArmAt(q2, e[i - 1]);
      TakesQuietly(q1, trace, n + i - 1, e[i - 1], q2);
    }
  }

  /** Behind the size line: chunk data, or trailers when the size is zero. */
  function BehindSize(q: Parser, v: nat): Parser {
    if v == 0 then q.(nread := 0, contentLength := 0, flags := q.flags.(trailing := true), state := HeaderFieldStart)
    else q.(nread := 0, contentLength := v, state := ChunkData)
  }

  lemma SizeLineEnds(q: GoodParser, trace: seq<Event>, n: nat)
    requires (q.state == ChunkSize || q.state == ChunkParameters) && Room(q, 2)
    ensures var q1 := BehindSize(q, q.contentLength);
      Good(q1) && Advance(Advance(Live(q, trace, n), CR), LF) == Live(q1, Emit(trace, ChunkHeader(q.contentLength)), n + 2)
  {
    hide Arm, Advance, Emit, MethodString, Good;
    var q1 := q.(state := ChunkSizeAlmostDone, nread := q.nread + 1);
    ChunkArmAt(q.(nread := q.nread + 1), CR);
    TakesQuietly(q, trace, n, CR, q1);
    var q2 := q1.(nread := q.nread + 2);
    ChunkArmAt(q2, LF);
    TakesNoting(q1, trace, n + 1, LF, BehindSize(q, q.contentLength), ChunkHeader(q.contentLength));
  }

  lemma SizeLineRead(q: GoodParser, trace: seq<Event>, n: nat, c: Chunk)
    requires q.state == ChunkSizeStart && LegalSize(c)
    ensures var q1 := BehindSize(q, |c.data|);
      Good(q1) && Over(Live(q, trace, n), SizeLine(c)) == Live(q1, Emit(trace, ChunkHeader(|c.data|)), n + |SizeLine(c)|)
  {
    hide Advance, Emit, MethodString, Good, Over, SizeDigits, HexValue;
    var start, k := Live(q, trace, n), |c.size|;
    FreshSize(q);
    ChunkSizeExact(q, trace, n, c.size);
    var q1 := InSize(q, |c.data|, k);
    OverAppend(start, c.size, c.extensions);
    ExtensionsOver(q1, trace, n + k, c.extensions);
    OverAppend(start, c.size + c.extensions, [CR, LF]);
    var r := Over(start, c.size + c.extensions);
    EndingOver(r, false);
    SizeLineEnds(r.q, trace, r.n);
  }

  lemma ExtensionsOver(q: GoodParser, trace: seq<Event>, n: nat, e: seq<byte>)
    requires q.state == ChunkSize && (e != [] ==> e[0] == 59 || e[0] == SP) && CR !in e && Room(q, |e|)
    ensures var q1 := q.(state := if e == [] then ChunkSize else ChunkParameters, nread := q.nread + |e|);
      Good(q1) && Over(Live(q, trace, n), e) == Live(q1, trace, n + |e|)
  {
    hide Advance, Good, Upto;
    if e == [] {
      OverNone(Live(q, trace, n));
    } else {
      ExtensionRun(q, trace, n, e, |e|);
    }
  }

  lemma FreshSize(q: GoodParser)
    requires q.state == ChunkSizeStart
    ensures q.nread == 0
  {}

  function ChunkTrace(trace: seq<Event>, d: seq<byte>): seq<Event> {
    Emit(Emit(Emit(trace, ChunkHeader(|d|)), Data(Body, d)), ChunkComplete)
  }

  lemma ChunkEnds(q: GoodParser, trace: seq<Event>, n: nat)
    requires q.state == ChunkDataAlmostDone
    ensures var q1 := q.(nread := 0, state := ChunkSizeStart);
      Good(q1) && Advance(Advance(Live(q, trace, n), CR), LF) == Live(q1, Emit(trace, ChunkComplete), n + 2)
  {
    hide Arm, Advance, Emit, MethodString, Good;
    ChunkArmAt(q, CR);
    var q1 := q.(state := ChunkDataDone);
    TakesUncounted(q, trace, n, CR, q1, FlushIfSet(Body), []);
    EmitAllNone(trace);
    assert OwnData(FlushIfSet(Body), CR) + [] == [];
    ChunkArmAt(q1, LF);
    TakesUncounted(q1, trace, n + 1, LF, q.(nread := 0, state := ChunkSizeStart), NoMark, [ChunkComplete]);
    assert OwnData(NoMark, LF) + [ChunkComplete] == [ChunkComplete];
    EmitAllOne(trace, ChunkComplete);
  }

  lemma ChunkRead(q: GoodParser, trace: seq<Event>, n: nat, c: Chunk)
    requires q.state == ChunkSizeStart && LegalSize(c) && c.data != []
    ensures var q1 := q.(contentLength := 0);
      Good(q1) && Over(Live(q, trace, n), ChunkWire(c)) == Live(q1, ChunkTrace(trace, c.data), n + |ChunkWire(c)|)
  {
    hide Advance, Emit, MethodString, Good;
    var start := Live(q, trace, n);
    FreshSize(q);
    SizeLineRead(q, trace, n, c);
    var r := Over(start, SizeLine(c));
    BodyRun(r.q, r.trace, r.n, c.data, |c.data|);
    assert c.data[..|c.data|] == c.data;
    OverAppend(start, SizeLine(c), c.data);
    OverAppend(start, SizeLine(c) + c.data, [CR, LF]);
    var r1 := Over(r, c.data);
    EndingOver(r1, false);
    ChunkEnds(r1.q, r1.trace, r1.n);
  }

  function ChunksWire(cs: seq<Chunk>): seq<byte> {
    if cs == [] then [] else ChunksWire(cs[..|cs| - 1]) + ChunkWire(cs[|cs| - 1])
  }

  function ChunksTrace(trace: seq<Event>, cs: seq<Chunk>): seq<Event> {
    if cs == [] then trace else ChunkTrace(ChunksTrace(trace, cs[..|cs| - 1]), cs[|cs| - 1].data)
  }

  function Payload(cs: seq<Chunk>): seq<byte> {
    if cs == [] then [] else Payload(cs[..|cs| - 1]) + cs[|cs| - 1].data
  }

  predicate LegalChunks(cs: seq<Chunk>) {
    forall i :: 0 <= i < |cs| ==> LegalSize(cs[i]) && cs[i].data != []
  }

  lemma {:induction false} ChunksRead(q: GoodParser, trace: seq<Event>, n: nat, cs: seq<Chunk>)
    requires q.state == ChunkSizeStart && LegalChunks(cs)
    ensures var q1 := if cs == [] then q else q.(contentLength := 0);
      Good(q1) && Over(Live(q, trace, n), ChunksWire(cs)) == Live(q1, ChunksTrace(trace, cs), n + |ChunksWire(cs)|)
  {
    hide Advance, Emit, MethodString, Good, ChunkTrace, LegalSize, ChunkWire;
    var start := Live(q, trace, n);
    if cs == [] {
      OverNone(start);
    } else {
      var before, c := cs[..|cs| - 1], cs[|cs| - 1];
      ChunksRead(q, trace, n, before);
      OverAppend(start, ChunksWire(before), ChunkWire(c));
      var r := Over(start, ChunksWire(before));
      ChunkRead(r.q, r.trace, r.n, c);
    }
  }

  lemma {:induction false} ChunksBooked(trace: seq<Event>, cs: seq<Chunk>)
    ensures LedgerOf(ChunksTrace(trace, cs)) == LedgerOf(trace).(open := LedgerOf(trace).open + Payload(cs))
  {
    hide Emit, LedgerOf;
    var l := LedgerOf(trace);
    if cs == [] {
      assert l.open + [] == l.open;
    } else {
      var before, d := cs[..|cs| - 1], cs[|cs| - 1].data;
      ChunksBooked(trace, before);
      var t := ChunksTrace(trace, before);
      LedgerEmit(t, ChunkHeader(|d|));
      LedgerEmit(Emit(t, ChunkHeader(|d|)), Data(Body, d));
      LedgerEmit(Emit(Emit(t, ChunkHeader(|d|)), Data(Body, d)), ChunkComplete);
      assert l.open + Payload(before) + d == l.open + (Payload(before) + d);
    }
  }

  // ---- Last chunk and trailers -----------------------------------------------------------------

  lemma TrailersEnd(q: GoodParser, trace: seq<Event>, n: nat, bare: bool)
    requires q.state == HeaderFieldStart && q.flags.trailing && Room(q, |Ending(bare)|)
    ensures var q1 := q.(nread := q.nread + |Ending(bare)|, state := NewMessage(q));
      var t := Emit(Emit(trace, ChunkComplete), MessageComplete);
      && Good(q1)
      && Over(Live(q, trace, n), Ending(bare))
        == if q.upgrade then Left(q1, t, n + |Ending(bare)|) else Live(q1, t, n + |Ending(bare)|)
  {
    hide Arm, Advance, Emit, MethodString, Good, NewMessage, Over;
    var k := |Ending(bare)|;
    IntoAlmostDone(q, trace, n, bare);
    TrailersFed(q.(nread := q.nread + k - 1, state := HeadersAlmostDone), trace, n + k - 1);
    EndState(q);
  }

  /** The line feed behind the trailers. */
  lemma TrailersFed(q: GoodParser, trace: seq<Event>, n: nat)
    requires q.state == HeadersAlmostDone && q.flags.trailing && Room(q, 1)
    ensures var q1 := q.(nread := q.nread + 1, state := NewMessage(q));
      var t := Emit(Emit(trace, ChunkComplete), MessageComplete);
      Good(q1) && Advance(Live(q, trace, n), LF) == if q.upgrade then Left(q1, t, n + 1) else Live(q1, t, n + 1)
  {
    hide Arm, Advance, Emit, MethodString, Good, NewMessage;
    var q1 := Counted(q);
    HeadersAlmostDoneArmAt(q1, LF);
    assert OwnData(NoMark, LF) + [ChunkComplete] == [ChunkComplete];
    EndState(q);
    EndsMessage(q, trace, n, LF, q1.(state := MessageDone), ChunkComplete);
  }

  const HIGH_BYTE: Chunk := Chunk([0x80], [], [])

  lemma HighByteIsLegal()
    ensures LegalSize(HIGH_BYTE) && !IsHex(0x80)
    ensures SizeLine(HIGH_BYTE) == [0x80, CR, LF]
  {
    assert SizeDigits([0x80]) && [0x80][..0] == [] && HexValue([0x80]) == HexValue([]) * 16 + 0;
  }

  /** The byte 0x80 is no hexadecimal digit, and a line of it alone is the last size line: a blank line behind it ends the message. */
  lemma HighByteEndsBody(q: GoodParser, trace: seq<Event>, n: nat)
    requires q.state == ChunkSizeStart
    ensures !IsHex(0x80)
    ensures Over(Live(q, trace, n), [0x80, CR, LF]) == Live(BehindSize(q, 0), Emit(trace, ChunkHeader(0)), n + 3)
    ensures var r := Over(Live(q, trace, n), [0x80, CR, LF] + [CR, LF]);
      !r.Failed? && r.n == n + 5 && r.trace == Emit(Emit(Emit(trace, ChunkHeader(0)), ChunkComplete), MessageComplete)
  {
    hide Advance, Emit, MethodString, Good, NewMessage, LegalSize, SizeLine, Over;
    HighByteIsLegal();
    SizeLineRead(q, trace, n, HIGH_BYTE);
    OverAppend(Live(q, trace, n), [0x80, CR, LF], [CR, LF]);
    TrailersEnd(BehindSize(q, 0), Emit(trace, ChunkHeader(0)), n + 3, false);
  }

  /** The callbacks of a whole chunked body. */
  function ChunkedTrace(trace: seq<Event>, cs: seq<Chunk>, trailers: seq<Header>): seq<Event> {
    Emit(Emit(HeaderTrace(Emit(ChunksTrace(trace, cs), ChunkHeader(0)), trailers), ChunkComplete), MessageComplete)
  }

  function ChunkedWire(cs: seq<Chunk>, last: Chunk, trailers: seq<Header>, bare: bool): seq<byte> {
    ChunksWire(cs) + SizeLine(last) + Lines(trailers) + Ending(bare)
  }

  predicate LegalTrailers(trailers: seq<Header>, bare: bool) {
    AllAcceptable(trailers, false) && |Lines(trailers)| + |Ending(bare)| <= MAX_HEADER_SIZE
  }

  /** The parser when the message is complete: what trailers leave, in the state the flags call for. */
  ghost predicate TrailersDone(q: Parser, r: Run, trailers: seq<Header>, bare: bool) {
    && r != Failed && (r.Left? <==> q.upgrade)
    && r.q.state == NewMessage(r.q) && r.q.upgrade == q.upgrade
    && r.q.major == q.major && r.q.minor == q.minor
    && r.q.nread == |Lines(trailers)| + |Ending(bare)|
    && BlockFlags(q.flags.(trailing := true), r.q.flags, trailers)
  }

  /** The trailers and the blank line, behind the last size line. */
  lemma TrailersRead(q: GoodParser, trace: seq<Event>, n: nat, trailers: seq<Header>, bare: bool)
    requires q.state == HeaderFieldStart && q.flags.trailing && !q.flags.contentLength && q.nread == 0 && LegalTrailers(trailers, bare)
    ensures var r := Over(Live(q, trace, n), Lines(trailers) + Ending(bare));
      && TrailersDone(q, r, trailers, bare) && r.n == n + |Lines(trailers)| + |Ending(bare)|
      && r.trace == Emit(Emit(HeaderTrace(trace, trailers), ChunkComplete), MessageComplete)
  {
    hide Advance, Emit, MethodString, Good, BlockFlags, Settled, AllAcceptable, HeaderTrace, Lines, NewMessage;
    var start := Live(q, trace, n);
    HeaderBlock(q, trace, n, trailers);
    var r := Over(start, Lines(trailers));
    OverAppend(start, Lines(trailers), Ending(bare));
    SettledOver(r, Ending(bare));
    StillTrailing(q.flags, Settled(r).q.flags, trailers);
    TrailersEnd(Settled(r).q, Settled(r).trace, Settled(r).n, bare);
    EndState(Settled(r).q);
    assert q.flags.(trailing := true) == q.flags;
  }

  /** The last size line, the trailers and the blank line. */
  lemma LastRead(q: GoodParser, trace: seq<Event>, n: nat, last: Chunk, trailers: seq<Header>, bare: bool)
    requires q.state == ChunkSizeStart && !q.flags.contentLength
    requires LegalSize(last) && last.data == [] && LegalTrailers(trailers, bare)
    ensures var w := SizeLine(last) + (Lines(trailers) + Ending(bare)); var r := Over(Live(q, trace, n), w);
      && TrailersDone(BehindSize(q, 0), r, trailers, bare) && r.n == n + |w|
      && r.trace == Emit(Emit(HeaderTrace(Emit(trace, ChunkHeader(0)), trailers), ChunkComplete), MessageComplete)
  {
    hide Emit, Good, LegalSize, SizeLine, LegalTrailers, HeaderTrace, Lines, Ending, TrailersDone, Over;
    SizeLineRead(q, trace, n, last);
    var r := Over(Live(q, trace, n), SizeLine(last));
    OverAppend(Live(q, trace, n), SizeLine(last), Lines(trailers) + Ending(bare));
    TrailersRead(r.q, r.trace, r.n, trailers, bare);
  }

  lemma SameDone(q: Parser, q1: Parser, r: Run, trailers: seq<Header>, bare: bool)
    requires TrailersDone(q1, r, trailers, bare)
    requires q1 == q.(nread := 0, contentLength := 0, flags := q.flags.(trailing := true), state := q1.state)
    ensures TrailersDone(q, r, trailers, bare)
  {
    hide NewMessage, BlockFlags, Lines;
  }

  lemma ChunkedRead(q: GoodParser, trace: seq<Event>, n: nat, cs: seq<Chunk>, last: Chunk, trailers: seq<Header>, bare: bool)
    requires q.state == ChunkSizeStart && !q.flags.contentLength
    requires LegalChunks(cs) && LegalSize(last) && last.data == [] && LegalTrailers(trailers, bare)
    ensures var r := Over(Live(q, trace, n), ChunkedWire(cs, last, trailers, bare));
      && TrailersDone(q, r, trailers, bare)
      && r.n == n + |ChunkedWire(cs, last, trailers, bare)| && r.trace == ChunkedTrace(trace, cs, trailers)
  {
    hide Emit, Good, ChunksTrace, LegalSize, SizeLine, LegalTrailers, HeaderTrace, Lines, ChunksWire,
      LegalChunks, Ending, TrailersDone, Over;
    var start, w := Live(q, trace, n), SizeLine(last) + (Lines(trailers) + Ending(bare));
    ChunksRead(q, trace, n, cs);
    var r1 := Over(start, ChunksWire(cs));
    OverAppend(start, ChunksWire(cs), w);
    assert ChunkedWire(cs, last, trailers, bare) == ChunksWire(cs) + w;
    FreshSize(q);
    LastRead(r1.q, r1.trace, r1.n, last, trailers, bare);
    SameDone(q, BehindSize(r1.q, 0), Over(r1, w), trailers, bare);
  }

  lemma StillTrailing(f: Flags, f1: Flags, hs: seq<Header>)
    requires BlockFlags(f, f1, hs)
    ensures f1.trailing == f.trailing
  {}

  /** Whether the connection goes on is decided by the version and the flags alone. */
  lemma EndState(q: Parser)
    ensures forall k, s :: NewMessage(q.(nread := k, state := s)) == NewMessage(q)
  {}

  lemma {:induction false} HeadersBooked(trace: seq<Event>, hs: seq<Header>)
    ensures LedgerOf(HeaderTrace(trace, hs)) == LedgerOf(trace)
  {
    hide Emit, LedgerOf;
    if hs != [] {
      var h := hs[|hs| - 1];
      HeadersBooked(trace, hs[..|hs| - 1]);
      var t := HeaderTrace(trace, hs[..|hs| - 1]);
      LedgerEmit(t, Data(Field, h.name));
      LedgerEmit(Emit(t, Data(Field, h.name)), Data(Value, ValueOf(h)));
    }
  }

  lemma ChunkedBooked(trace: seq<Event>, cs: seq<Chunk>, trailers: seq<Header>)
    ensures var l := LedgerOf(trace);
      LedgerOf(ChunkedTrace(trace, cs, trailers)) == Ledger(l.bodies + [l.open + Payload(cs)], [])
  {
    hide Emit, LedgerOf, HeaderTrace, ChunksTrace;
    var t0 := ChunksTrace(trace, cs);
    var t1 := Emit(t0, ChunkHeader(0));
    var t2 := HeaderTrace(t1, trailers);
    ChunksBooked(trace, cs);
    LedgerEmit(t0, ChunkHeader(0));
    HeadersBooked(t1, trailers);
    LedgerEmit(t2, ChunkComplete);
    LedgerEmit(Emit(t2, ChunkComplete), MessageComplete);
  }
}
