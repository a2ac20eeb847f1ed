/** Whole messages, head and body, one after the other: every body is delivered whole and completed once. */
module HttpMessages {
  import opened Bytes
  import opened HttpTypes
  import opened HttpStep
  import opened HttpRun
  import opened HttpFeed
  import opened HttpHeaders
  import opened HttpHead
  import opened HttpBody
  import opened HttpRequest
  import opened HttpParserModule

  datatype MessageBody =
    | Nothing
    | Sized(bytes: seq<byte>)
    | Chunked(chunks: seq<Chunk>, last: Chunk, trailers: seq<Header>, bareEnd: bool)

  datatype Message = Message(request: Request, body: MessageBody)

  /** The body is the one that the headers announce. */
  predicate LegalMessage(m: Message) {
    var hs := m.request.headers;
    && LegalRequest(m.request) && m.request.meth != CONNECT
    && match m.body
       case Nothing => !Any(hs, Chunks) && (SizeOf(hs, ULLONG_MAX) == 0 || SizeOf(hs, ULLONG_MAX) == ULLONG_MAX)
       case Sized(bytes) => !Any(hs, Chunks) && SizeOf(hs, ULLONG_MAX) == |bytes| && 0 < |bytes| < ULLONG_MAX
       case Chunked(cs, last, trailers, bare) =>
         Any(hs, Chunks) && LegalChunks(cs) && LegalSize(last) && last.data == [] && LegalTrailers(trailers, bare)
  }

  function BodyWire(b: MessageBody): seq<byte> {
    match b
    case Nothing => []
    case Sized(bytes) => bytes
    case Chunked(cs, last, trailers, bare) => ChunkedWire(cs, last, trailers, bare)
  }

  /** The bytes that the body consists of. */
  function BodyBytes(b: MessageBody): seq<byte> {
    match b
    case Nothing => []
    case Sized(bytes) => bytes
    case Chunked(cs, _, _, _) => Payload(cs)
  }

  function MessageWire(m: Message): seq<byte>
    requires LegalMessage(m)
  {
    Wire(m.request) + BodyWire(m.body)
  }

  function TrailersOf(m: Message): seq<Header> {
    if m.body.Chunked? then m.body.trailers else []
  }

  /** Trailers are counted against the next head: only the blank line of a head resets the count. */
  function Carry(m: Message): nat {
    if m.body.Chunked? then |Lines(m.body.trailers)| + |Ending(m.body.bareEnd)| else 0
  }

  /** The connection flag for one token, set in the head or in the trailers. */
  predicate FlagTold(flag: bool, m: Message, asks: Header -> bool) {
    flag <==> Any(m.request.headers, asks) || Any(TrailersOf(m), asks)
  }

  predicate CompletedLast(trace: seq<Event>) {
    trace != [] && trace[|trace| - 1].MessageComplete?
  }

  /** What a whole message makes of a run. */
  ghost predicate MessageRead(r: Run, trace: seq<Event>, n: nat, m: Message)
    requires LegalMessage(m)
  {
    && !r.Failed? && r.n == n + |MessageWire(m)| && (r.Left? <==> r.q.upgrade)
    && r.q.state == NewMessage(r.q) && r.q.nread == Carry(m)
    && r.q.major == m.request.major && r.q.minor == m.request.minor
    && (r.q.upgrade <==> Switches(m.request))
    && FlagTold(r.q.flags.close, m, AsksClose) && FlagTold(r.q.flags.keepAlive, m, AsksKeepAlive)
    && LedgerOf(r.trace) == Ledger(LedgerOf(trace).bodies + [LedgerOf(trace).open + BodyBytes(m.body)], [])
    && CompletedLast(r.trace)
  }

  lemma LastEvent(trace: seq<Event>)
    ensures CompletedLast(Emit(trace, MessageComplete))
  {}

  lemma HeadBooked(trace: seq<Event>, r: Request, e: Event)
    requires e.HeadersComplete?
    ensures LedgerOf(Emit(HeaderTrace(LineTrace(trace, r), r.headers), e)) == LedgerOf(trace)
  {
    hide Emit, LedgerOf, HeaderTrace;
    LedgerEmit(trace, MessageBegin);
    LedgerEmit(Emit(trace, MessageBegin), Data(Url, r.target));
    HeadersBooked(LineTrace(trace, r), r.headers);
    LedgerEmit(HeaderTrace(LineTrace(trace, r), r.headers), e);
  }

  /** What the flags behind the headers tell. */
  lemma HeadFlagsTold(f: Flags, hs: seq<Header>)
    requires BlockFlags(NO_FLAGS, f, hs)
    ensures (f.chunked <==> Any(hs, Chunks)) && (f.contentLength <==> Any(hs, Sizes)) && (f.upgrade <==> Any(hs, Upgrades))
    ensures (f.connectionUpgrade <==> Any(hs, AsksUpgrade))
    ensures (f.close <==> Any(hs, AsksClose)) && (f.keepAlive <==> Any(hs, AsksKeepAlive))
  {}

  lemma TrailerFlagsTold(f: Flags, f1: Flags, ts: seq<Header>)
    requires BlockFlags(f.(trailing := true), f1, ts)
    ensures (f1.close <==> f.close || Any(ts, AsksClose)) && (f1.keepAlive <==> f.keepAlive || Any(ts, AsksKeepAlive))
  {}

  /** What is known of the parser behind the headers. */
  ghost predicate HeadTold(q1: Parser, m: Message) {
    var r := m.request;
    && q1.meth == r.meth && q1.major == r.major && q1.minor == r.minor && q1.contentLength == SizeOf(r.headers, ULLONG_MAX)
    && (q1.flags.chunked <==> Any(r.headers, Chunks)) && (q1.flags.contentLength <==> Any(r.headers, Sizes))
    && (q1.flags.upgrade <==> Any(r.headers, Upgrades))
    && (q1.flags.connectionUpgrade <==> Any(r.headers, AsksUpgrade))
    && (q1.flags.close <==> Any(r.headers, AsksClose)) && (q1.flags.keepAlive <==> Any(r.headers, AsksKeepAlive))
  }

  /** Without trailers the head alone tells. */
  lemma HeadAloneTells(q1: Parser, m: Message)
    requires HeadTold(q1, m) && !m.body.Chunked?
    ensures FlagTold(q1.flags.close, m, AsksClose) && FlagTold(q1.flags.keepAlive, m, AsksKeepAlive)
  {
    NoneOf(AsksClose);
    NoneOf(AsksKeepAlive);
    hide Any;
  }

  lemma NoneOf(p: Header -> bool)
    ensures !Any([], p)
  {}

  /** Whether the connection goes on is decided by version and flags. */
  lemma SameEnd(q: Parser, q1: Parser)
    requires q.flags == q1.flags && q.major == q1.major && q.minor == q1.minor
    ensures NewMessage(q) == NewMessage(q1)
  {}

  lemma UpgradeTold(q1: Parser, m: Message)
    requires HeadTold(q1, m) && m.request.meth != CONNECT
    ensures AsksForUpgrade(q1) <==> Switches(m.request)
    ensures q1.major == m.request.major && q1.minor == m.request.minor
  {
    hide Any, SizeOf;
  }

  /** A message without trailers, from how its run ended. */
  lemma PlainEnd(q1: Parser, q2: GoodParser, t: seq<Event>, trace: seq<Event>, n: nat, m: Message)
    requires LegalMessage(m) && !m.body.Chunked? && HeadTold(q1, m)
    requires q2 == q1.(nread := 0, upgrade := AsksForUpgrade(q1), state := NewMessage(q1), contentLength := q2.contentLength)
    requires LedgerOf(t) == Ledger(LedgerOf(trace).bodies + [LedgerOf(trace).open + BodyBytes(m.body)], [])
    requires CompletedLast(t)
    ensures var k := n + |MessageWire(m)|;
      && (AsksForUpgrade(q1) ==> MessageRead(Left(q2, t, k), trace, n, m))
      && (!AsksForUpgrade(q1) ==> MessageRead(Live(q2, t, k), trace, n, m))
  {
    hide LedgerOf, SizeOf, Lines, MethodString, AtSwitch, Wire, Good, Any, NewMessage, FlagTold, LegalMessage, MessageWire, CompletedLast,
      BodyBytes, HeadTold, AsksForUpgrade;
    NotConnect(m);
    UpgradeTold(q1, m);
    HeadAloneTells(q1, m);
    SameEnd(q1, q2);
  }

  lemma NotConnect(m: Message)
    requires LegalMessage(m)
    ensures m.request.meth != CONNECT
  {
    hide Any, LegalRequest;
  }

  /** A message that ends with its head. */
  lemma NothingRead(q1: GoodParser, trace: seq<Event>, t: seq<Event>, n: nat, m: Message, r: Run)
    requires LegalMessage(m) && m.body == Nothing && HeadTold(q1, m) && LedgerOf(t) == LedgerOf(trace)
    requires var (q2, t2, live) := IntoBody(q1, t);
      Good(q2) && r == if live then Live(q2, t2, n + |Wire(m.request)|) else Left(q2, t2, n + |Wire(m.request)|)
    ensures MessageRead(r, trace, n, m)
  {
    hide Emit, LedgerOf, SizeOf, Lines, Good, Any, NewMessage, FlagTold, LegalRequest, Wire, MessageRead;
    NoBodyWire();
    LedgerEmit(t, MessageComplete);
    LastEvent(t);
    assert LedgerOf(trace).open + [] == LedgerOf(trace).open;
    PlainEnd(q1, r.q, r.trace, trace, n, m);
  }

  lemma SizedRead(q1: GoodParser, trace: seq<Event>, t: seq<Event>, n: nat, m: Message)
    requires LegalMessage(m) && m.body.Sized? && HeadTold(q1, m) && LedgerOf(t) == LedgerOf(trace)
    requires Good(HeadDone(q1, BodyIdentity)) && q1.contentLength == |m.body.bytes|
    ensures MessageRead(Over(Live(HeadDone(q1, BodyIdentity), t, n + |Wire(m.request)|), m.body.bytes), trace, n, m)
  {
    hide Emit, LedgerOf, SizeOf, Lines, MethodString, AtSwitch, Wire, Good, Any, NewMessage, Over, HeadTold, MessageRead,
      LegalMessage, LegalRequest;
    NotConnect(m);
    LegalHead(m);
    var d, k := m.body.bytes, n + |Wire(m.request)|;
    IdentityRead(HeadDone(q1, BodyIdentity), t, k, d);
    LedgerEmit(t, Data(Body, d));
    LedgerEmit(Emit(t, Data(Body, d)), MessageComplete);
    LastEvent(Emit(t, Data(Body, d)));
    SameEnd(q1, HeadDone(q1, BodyIdentity));
    var r := Over(Live(HeadDone(q1, BodyIdentity), t, k), d);
    PlainEnd(q1, r.q, r.trace, trace, n, m);
  }

  /** A message with trailers, from how its run ended. */
  lemma ChunksEnd(q1: Parser, q2: Parser, r: Run, trace: seq<Event>, n: nat, m: Message)
    requires LegalMessage(m) && m.body.Chunked? && HeadTold(q1, m) && q2 == HeadDone(q1, ChunkSizeStart)
    requires TrailersDone(q2, r, m.body.trailers, m.body.bareEnd) && r.n == n + |MessageWire(m)|
    requires LedgerOf(r.trace) == Ledger(LedgerOf(trace).bodies + [LedgerOf(trace).open + BodyBytes(m.body)], [])
    requires CompletedLast(r.trace)
    ensures MessageRead(r, trace, n, m)
  {
    hide LedgerOf, SizeOf, Lines, Wire, Good, Any, LegalMessage, MessageWire, CompletedLast, BodyBytes, BlockFlags, Ending;
    NotConnect(m);
    UpgradeTold(q1, m);
    TrailerFlagsTold(q1.flags, r.q.flags, m.body.trailers);
  }

  lemma NotSizedToo(m: Message)
    requires LegalMessage(m) && m.body.Chunked?
    ensures !Any(m.request.headers, Sizes)
  {
    hide Any;
  }

  lemma ChunksRead(q1: GoodParser, trace: seq<Event>, t: seq<Event>, n: nat, m: Message)
    requires LegalMessage(m) && m.body.Chunked? && HeadTold(q1, m) && LedgerOf(t) == LedgerOf(trace)
    requires Good(HeadDone(q1, ChunkSizeStart))
    ensures MessageRead(Over(Live(HeadDone(q1, ChunkSizeStart), t, n + |Wire(m.request)|), BodyWire(m.body)), trace, n, m)
  {
    hide Emit, LedgerOf, SizeOf, Lines, Good, Any, NewMessage, Over, ChunkedWire, BlockFlags, LegalSize, LegalChunks, LegalTrailers,
      Wire, TrailersDone, MessageRead, CompletedLast, LegalRequest, HeaderTrace, ChunksTrace, Payload;
    LegalHead(m);
    NotSizedToo(m);
    var b, q2 := m.body, HeadDone(q1, ChunkSizeStart);
    ChunkedRead(q2, t, n + |Wire(m.request)|, b.chunks, b.last, b.trailers, b.bareEnd);
    var r := Over(Live(q2, t, n + |Wire(m.request)|), BodyWire(b));
    ChunkedBooked(t, b.chunks, b.trailers);
    LastEvent(Emit(HeaderTrace(Emit(ChunksTrace(t, b.chunks), ChunkHeader(0)), b.trailers), ChunkComplete));
    ChunksEnd(q1, q2, r, trace, n, m);
  }

  /** A whole message, from wherever the parser starts one. */
  lemma OneMessage(q: GoodParser, trace: seq<Event>, n: nat, m: Message)
    requires q.state == StartReq && LegalMessage(m) && Room(q, |Wire(m.request)|)
    ensures MessageRead(Over(Live(q, trace, n), MessageWire(m)), trace, n, m)
  {
    hide Advance, Emit, Good, Any, SizeOf, Lines, NewMessage, LedgerOf, BlockFlags, LegalRequest, Wire, BodyWire, MessageRead, LegalSize;
    var start, r := Live(q, trace, n), m.request;
    LegalHead(m);
    var q1 := RequestRead(q, trace, n, r);
    HeadFlagsTold(q1.flags, r.headers);
    var t := Emit(HeaderTrace(LineTrace(trace, r), r.headers), HeadersEvent(q1));
    HeadBooked(trace, r, HeadersEvent(q1));
    OverAppend(start, Wire(r), BodyWire(m.body));
    match m.body {
      case Nothing =>
        OverNone(Over(start, Wire(r)));
        NoBodyWire();
        NothingRead(q1, trace, t, n, m, Over(start, Wire(r)));
      case Sized(bytes) =>
        SizedWire(bytes);
        SizedRead(q1, trace, t, n, m);
      case Chunked(_, _, _, _) => ChunksRead(q1, trace, t, n, m);
    }
  }

  lemma NoBodyWire()
    ensures BodyWire(Nothing) == []
  {}

  lemma SizedWire(bytes: seq<byte>)
    ensures BodyWire(Sized(bytes)) == bytes
  {}

  lemma LegalHead(m: Message)
    requires LegalMessage(m)
    ensures LegalRequest(m.request) && m.request.major <= 9 && m.request.minor <= 9
  {
    hide Any;
  }

  /**
    Body conservation for a whole request with a Content-Length, with chunks or without a body: however
    head and body are cut into calls, the `on_body` slices make up exactly the body, and
    `message_complete` is called once, last.
  */
  lemma BodyConserved(m: Message, pieces: seq<seq<byte>>)
    requires LegalMessage(m) && |Wire(m.request)| <= MAX_HEADER_SIZE && Concat(pieces) == MessageWire(m)
    ensures Good(INITIAL)
    ensures var r := OverPieces(Live(INITIAL, [], 0), pieces);
      && !r.Failed? && r.n == |MessageWire(m)| && (r.Left? <==> Switches(m.request))
      && BodyOf(r.trace) == BodyBytes(m.body) && Completions(r.trace) == 1
      && CompletedLast(r.trace)
      && (r.Live? && r.q.state == StartReq <==> StaysOpen(m))
  {
    hide Good, Over, OverPieces, MessageWire, BodyOf, BodyBytes, Completions, StaysOpen, Switches, CompletedLast;
    InitialIsGood();
    PiecesLikeWhole(Live(INITIAL, [], 0), pieces);
    WholeConserved(m);
  }

  /** A message in one piece. */
  lemma WholeConserved(m: Message)
    requires LegalMessage(m) && |Wire(m.request)| <= MAX_HEADER_SIZE
    ensures Good(INITIAL)
    ensures var r := Over(Live(INITIAL, [], 0), MessageWire(m));
      && !r.Failed? && r.n == |MessageWire(m)| && (r.Left? <==> Switches(m.request))
      && BodyOf(r.trace) == BodyBytes(m.body) && Completions(r.trace) == 1
      && CompletedLast(r.trace)
      && (r.Live? && r.q.state == StartReq <==> StaysOpen(m))
  {
    hide Good, Over, LedgerOf, LegalRequest, Wire, BodyWire, BodyOf, Completions, Any, BodyBytes, CompletedLast, StaysOpen;
    InitialIsGood();
    OneMessage(INITIAL, [], 0, m);
    var r := Over(Live(INITIAL, [], 0), MessageWire(m));
    NothingBooked();
    LedgerBalances(r.trace);
    OpenEnd(r, [], 0, m);
    OneBody(BodyBytes(m.body));
  }

  lemma OneBody(body: seq<byte>)
    ensures Concat([] + [[] + body]) + [] == body && Concat([[] + body]) == body
  {
    assert [] + body == body;
    assert [body][1..] == [] && Concat([body]) == body + Concat([]) == body;
    assert [] + [[] + body] == [body];
  }

  lemma NothingBooked()
    ensures LedgerOf([]) == Ledger([], [])
  {}

  // ---- Pipelined messages ----------------------------------------------------------------------

  /** The parser goes on to a next message: no switch of protocols is asked for, and the connection is kept. */
  predicate StaysOpen(m: Message) {
    var hs, ts := m.request.headers, TrailersOf(m);
    && !Switches(m.request)
    && if m.request.major > 0 && m.request.minor > 0 then !Any(hs, AsksClose) && !Any(ts, AsksClose)
       else Any(hs, AsksKeepAlive) || Any(ts, AsksKeepAlive)
  }

  function CarryOf(ms: seq<Message>): nat {
    if ms == [] then 0 else Carry(ms[|ms| - 1])
  }

  /** Every message but the last keeps the connection, and every head fits with what the one before carried over. */
  predicate LegalPipeline(ms: seq<Message>) {
    ms != [] ==>
      var before, m := ms[..|ms| - 1], ms[|ms| - 1];
      && LegalPipeline(before) && LegalMessage(m)
      && EndsOpen(before)
      && CarryOf(before) + |Wire(m.request)| <= MAX_HEADER_SIZE
  }

  function PipelineWire(ms: seq<Message>): seq<byte>
    requires LegalPipeline(ms)
  {
    if ms == [] then [] else PipelineWire(ms[..|ms| - 1]) + MessageWire(ms[|ms| - 1])
  }

  function Bodies(ms: seq<Message>): seq<seq<byte>> {
    if ms == [] then [] else Bodies(ms[..|ms| - 1]) + [BodyBytes(ms[|ms| - 1].body)]
  }

  lemma OpenEnd(r: Run, trace: seq<Event>, n: nat, m: Message)
    requires LegalMessage(m) && MessageRead(r, trace, n, m)
    ensures r.Live? && r.q.state == StartReq <==> StaysOpen(m)
  {
    hide Any, LegalMessage, LedgerOf, MessageWire;
  }

  predicate EndsOpen(ms: seq<Message>) {
    ms == [] || StaysOpen(ms[|ms| - 1])
  }

  /** All of it was taken, the bodies are those of the messages, and no body byte is left over. */
  ghost predicate PipelineDone(r: Run, ms: seq<Message>)
    requires LegalPipeline(ms)
  {
    && !r.Failed? && r.n == |PipelineWire(ms)| && LedgerOf(r.trace) == Ledger(Bodies(ms), [])
    && r.q.nread == CarryOf(ms)
    && (r.Live? && r.q.state == StartReq <==> EndsOpen(ms))
  }

  lemma {:induction false} PipelineRead(ms: seq<Message>)
    requires LegalPipeline(ms)
    ensures Good(INITIAL) && PipelineDone(Over(Live(INITIAL, [], 0), PipelineWire(ms)), ms)
  {
    hide Good, LedgerOf, LegalMessage, Wire, MessageWire, Over, PipelineDone;
    InitialIsGood();
    var start := Live(INITIAL, [], 0);
    if ms == [] {
      OverNone(start);
      NoPipeline();
    } else {
      var before, m := ms[..|ms| - 1], ms[|ms| - 1];
      PipelineRead(before);
      OverAppend(start, PipelineWire(before), MessageWire(m));
      OneMore(Over(start, PipelineWire(before)), ms);
    }
  }

  lemma NoPipeline()
    ensures PipelineDone(Live(INITIAL, [], 0), [])
  {
    NothingBooked();
  }

  /** One message behind a pipeline that leaves the connection open. */
  lemma OneMore(r: Run, ms: seq<Message>)
    requires ms != [] && LegalPipeline(ms) && (r.Live? ==> Good(r.q)) && PipelineDone(r, ms[..|ms| - 1])
    ensures PipelineDone(Over(r, MessageWire(ms[|ms| - 1])), ms)
  {
    hide Good, LedgerOf, LegalMessage, StaysOpen, Wire, MessageWire, BodyBytes, Over, MessageRead, Carry;
    var before, m := ms[..|ms| - 1], ms[|ms| - 1];
    OneMessage(r.q, r.trace, r.n, m);
    var r1 := Over(r, MessageWire(m));
    MessageBooked(r1, r.trace, r.n, m);
    assert [] + BodyBytes(m.body) == BodyBytes(m.body);
    OpenEnd(r1, r.trace, r.n, m);
  }

  lemma MessageBooked(r: Run, trace: seq<Event>, n: nat, m: Message)
    requires LegalMessage(m) && MessageRead(r, trace, n, m)
    ensures !r.Failed? && r.n == n + |MessageWire(m)| && r.q.nread == Carry(m)
    ensures LedgerOf(r.trace) == Ledger(LedgerOf(trace).bodies + [LedgerOf(trace).open + BodyBytes(m.body)], [])
  {
    hide Any, LegalMessage, LedgerOf, MessageWire;
  }

  /**
    Pipelining: any number of requests with their bodies, cut into calls anywhere, are delivered one
    by one, each body whole and completed before the next, nothing left over.
  */
  lemma PipelinedBodies(ms: seq<Message>, pieces: seq<seq<byte>>)
    requires LegalPipeline(ms) && Concat(pieces) == PipelineWire(ms)
    ensures Good(INITIAL) && PipelineDone(OverPieces(Live(INITIAL, [], 0), pieces), ms)
  {
    hide Advance, Good, LedgerOf, LegalPipeline, PipelineWire, Bodies, PipelineDone;
    PipelineRead(ms);
    PiecesLikeWhole(Live(INITIAL, [], 0), pieces);
  }
}
