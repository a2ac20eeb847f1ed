/**
  The language of the parser: exactly the wire forms of legal requests are reported as heads, and exactly
  those of legal messages, with their bodies, as complete messages.
*/
module HttpLanguage {
  import opened Bytes
  import opened HttpTypes
  import opened HttpStep
  import opened HttpRun
  import opened HttpFeed
  import opened HttpHeaders
  import opened HttpHead
  import opened HttpBody
  import opened HttpRequest
  import opened HttpMessages
  import opened HttpReported
  import opened HttpReportedHead
  import opened HttpReportedBody
  import opened HttpParserModule

  // ---- Counting --------------------------------------------------------------------------------

  /** How often `on_headers_complete` was called. */
  function Heads(trace: seq<Event>): nat {
    if trace == [] then 0
    else Heads(trace[..|trace| - 1]) + if trace[|trace| - 1].HeadersComplete? then 1 else 0
  }

  lemma {:induction false} TwoKinds(trace: seq<Event>)
    ensures Reports(trace) == Heads(trace) + Completions(trace)
  {
    if trace != [] {
      TwoKinds(trace[..|trace| - 1]);
    }
  }

  lemma CountsEmit(trace: seq<Event>, e: Event)
    ensures Heads(Emit(trace, e)) == Heads(trace) + if e.HeadersComplete? then 1 else 0
    ensures Completions(Emit(trace, e)) == Completions(trace) + if e.MessageComplete? then 1 else 0
  {
    var t := Emit(trace, e);
    if t == trace + [e] {
      assert t[..|t| - 1] == trace;
    } else {
      assert t[..|t| - 1] == trace[..|trace| - 1];
    }
  }

  lemma {:induction false} CountsGrow(trace: seq<Event>, events: seq<Event>)
    ensures Heads(EmitAll(trace, events)) >= Heads(trace) && Completions(EmitAll(trace, events)) >= Completions(trace)
  {
    hide Emit, Heads, Completions;
    if events != [] {
      var before := events[..|events| - 1];
      CountsGrow(trace, before);
      CountsEmit(EmitAll(trace, before), events[|events| - 1]);
    }
  }

  /** What was reported stays so. */
  lemma {:induction false} CountsStay(r: Run, data: seq<byte>, i: nat)
    requires i <= |data| && r != Failed && Upto(r, data, i) != Failed
    ensures var t := Upto(r, data, i).trace; Heads(t) >= Heads(r.trace) && Completions(t) >= Completions(r.trace)
  {
    hide Advance, Heads, Completions;
    if i > 0 {
      UptoStep(r, data, i - 1);
      if Upto(r, data, i - 1) == Failed {
        AdvanceFailed(data[i - 1]);
      }
      CountsStay(r, data, i - 1);
      CountsStep(Upto(r, data, i - 1), data[i - 1]);
    }
  }

  lemma CountsStep(r: Run, ch: byte)
    requires r != Failed && Advance(r, ch) != Failed
    ensures var t := Advance(r, ch).trace; Heads(t) >= Heads(r.trace) && Completions(t) >= Completions(r.trace)
  {
    hide Exec, Good, EmitAll, MethodString, Heads, Completions, AtSwitch;
    if r.Live? {
      GoodAtSwitch(r.q);
      LengthsAtSwitch(r.q);
      CountsGrow(r.trace, StepByte(r.q, ch).events);
    }
  }

  /** A run over a beginning of its input: it has not failed, and nothing is taken back later. */
  lemma Beginning(r: Run, a: seq<byte>, s: seq<byte>)
    requires r != Failed && a <= s && Over(r, s) != Failed
    ensures Over(r, s) == Over(Over(r, a), s[|a|..]) && NotLess(Over(r, a), Over(r, s))
  {
    hide Over, NotLess;
    assert s == a + s[|a|..];
    OverAppend(r, a, s[|a|..]);
    if Over(r, a) == Failed {
      FailedStays(s[|a|..]);
    }
    CountsOver(Over(r, a), s[|a|..]);
  }

  /** Neither run has failed, and the second one has reported all that the first one has. */
  ghost predicate NotLess(r: Run, r1: Run) {
    && r != Failed && r1 != Failed
    && Heads(r1.trace) >= Heads(r.trace) && Completions(r1.trace) >= Completions(r.trace)
  }

  lemma CountsOver(r: Run, data: seq<byte>)
    requires r != Failed && Over(r, data) != Failed
    ensures NotLess(r, Over(r, data))
  {
    hide Advance, Heads, Completions;
    CountsStay(r, data, |data|);
  }

  // ---- Heads -----------------------------------------------------------------------------------

  lemma {:induction false} CountsOfHeaders(trace: seq<Event>, hs: seq<Header>)
    ensures Heads(HeaderTrace(trace, hs)) == Heads(trace) && Completions(HeaderTrace(trace, hs)) == Completions(trace)
  {
    hide Emit, Heads, Completions;
    if hs != [] {
      var h, t := hs[|hs| - 1], HeaderTrace(trace, hs[..|hs| - 1]);
      CountsOfHeaders(trace, hs[..|hs| - 1]);
      CountsEmit(t, Data(Field, h.name));
      CountsEmit(Emit(t, Data(Field, h.name)), Data(Value, ValueOf(h)));
    }
  }

  /** The callbacks up to the headers report one head. */
  lemma CountsOfHead(trace: seq<Event>, r: Request, e: Event)
    requires e.HeadersComplete?
    ensures var t := Emit(HeaderTrace(LineTrace(trace, r), r.headers), e);
      Heads(t) == Heads(trace) + 1 && Completions(t) == Completions(trace)
  {
    hide Emit, Heads, Completions, HeaderTrace;
    CountsEmit(trace, MessageBegin);
    CountsEmit(Emit(trace, MessageBegin), Data(Url, r.target));
    CountsOfHeaders(LineTrace(trace, r), r.headers);
    CountsEmit(HeaderTrace(LineTrace(trace, r), r.headers), e);
  }

  /** Where a legal request leads: its head is reported, and where there is no body the message too. */
  ghost predicate HeadComes(q1: Parser, run: Run, trace: seq<Event>, n: nat, r: Request) {
    && run != Failed && !(q1.flags.chunked && q1.flags.contentLength)
    && (run.Left? || run.Live?) && (run.Live? ==> Good(run.q))
    && exists t :: Heads(t) == Heads(trace) + 1 && Completions(t) == Completions(trace)
         && IntoBody(q1, t) == (run.q, run.trace, run.Live?)
  }

  lemma HeadReadTold(q: GoodParser, trace: seq<Event>, n: nat, r: Request) returns (q1: GoodParser)
    requires q.state == StartReq && LegalRequest(r) && Room(q, |Wire(r)|)
    ensures HeadRead(q, q1, r) && HeadComes(q1, Over(Live(q, trace, n), Wire(r)), trace, n, r)
  {
    hide Good, Over, LegalTarget, LegalSpacing, AllAcceptable, Any, Wire, HeaderTrace, LineTrace, Heads, Completions, Emit,
      HeadRead, IntoBody;
    q1 := RequestRead(q, trace, n, r);
    CountsOfHead(trace, r, HeadersEvent(q1));
  }

  lemma Grown(q: Parser, t: seq<Event>)
    ensures var (q1, t1, live) := IntoBody(q, t); Heads(t1) >= Heads(t) && Completions(t1) >= Completions(t)
  {
    hide Heads, Completions, Emit, NewMessage;
    CountsEmit(t, MessageComplete);
  }

  /**
    From between two messages, as long as nothing fails, a further head has been reported complete iff the
    input begins with the wire form of a legal request within what is left of the budget.
  */
  lemma HeadIff(q: GoodParser, trace: seq<Event>, n: nat, s: seq<byte>)
    requires q.state == StartReq && Over(Live(q, trace, n), s) != Failed
    ensures Heads(Over(Live(q, trace, n), s).trace) > Heads(trace) <==> exists r :: BeginsWith(s, r, q)
  {
    hide Good, Over, LegalTarget, LegalSpacing, AllAcceptable, Any, Wire, Heads, Completions, IntoBody, HeadRead, Reports;
    var start := Live(q, trace, n);
    var run := Over(start, s);
    if Heads(run.trace) > Heads(trace) {
      CountsOver(start, s);
      TwoKinds(trace);
      TwoKinds(run.trace);
      var r := ReportedIsRequest(q, trace, n, s);
    }
    if r :| BeginsWith(s, r, q) {
      var q1 := HeadReadTold(q, trace, n, r);
      Beginning(start, Wire(r), s);
      var t :| Heads(t) == Heads(trace) + 1 && Completions(t) == Completions(trace)
        && IntoBody(q1, t) == (Over(start, Wire(r)).q, Over(start, Wire(r)).trace, Over(start, Wire(r)).Live?);
      Grown(q1, t);
    }
  }

  // ---- Messages --------------------------------------------------------------------------------

  /** A further message was completed. */
  ghost predicate Completed(r: Run, trace: seq<Event>) {
    r != Failed && Completions(r.trace) > Completions(trace)
  }

  /** The input begins with a legal message whose head fits into what is left of the budget. */
  ghost predicate BeginsWithMessage(s: seq<byte>, m: Message, q: Parser) {
    LegalMessage(m) && MessageWire(m) <= s && Room(q, |Wire(m.request)|)
  }

  /** As long as bytes of a body are missing, the message is not complete. */
  lemma BodyThere(q: GoodParser, trace: seq<Event>, n: nat, s: seq<byte>)
    requires q.state == BodyIdentity && Completed(Over(Live(q, trace, n), s), trace)
    ensures |s| >= q.contentLength
  {
    hide Advance, Good, Completions, Emit, Heads;
    if |s| < q.contentLength {
      BodyRun(q, trace, n, s, |s|);
      assert s[..|s|] == s;
      CountsEmit(trace, Data(Body, s));
    }
  }

  /** What the flags behind the headers say is what the headers say. */
  lemma HeadSays(q: Parser, q1: Parser, r: Request)
    requires LegalRequest(r) && HeadRead(q, q1, r)
    ensures (q1.flags.chunked <==> Any(r.headers, Chunks)) && (q1.flags.contentLength <==> Any(r.headers, Sizes))
    ensures q1.contentLength == SizeOf(r.headers, ULLONG_MAX) && q1.meth == r.meth
  {
    hide Any, SizeOf, LegalTarget, AllAcceptable, LineWire, Lines;
    HeadFlags(q1.flags, r.headers);
  }

  /** A request that announces no body is a message by itself. */
  lemma NoBodyMessage(q1: Parser, s: seq<byte>, r: Request, q: Parser) returns (m: Message)
    requires BeginsWith(s, r, q) && HeadRead(q, q1, r) && r.meth != CONNECT && !HasBody(q1)
    ensures BeginsWithMessage(s, m, q)
  {
    hide Any, SizeOf, LegalTarget, LegalSpacing, AllAcceptable, Wire, HeadRead;
    m := Message(r, Nothing);
    HeadSaysPlain(q, q1, r);
    NoBodyWire();
    assert Wire(r) + [] == Wire(r);
  }

  lemma HeadSaysPlain(q: Parser, q1: Parser, r: Request)
    requires LegalRequest(r) && HeadRead(q, q1, r)
    ensures r.major <= 9 && r.minor <= 9
    ensures (q1.flags.chunked <==> Any(r.headers, Chunks)) && q1.contentLength == SizeOf(r.headers, ULLONG_MAX)
    ensures q1.meth == r.meth
  {
    hide Any, SizeOf, HeadRead;
    HeadSays(q, q1, r);
  }

  lemma SizedMessage(q1: Parser, s: seq<byte>, r: Request, q: Parser) returns (m: Message)
    requires BeginsWith(s, r, q) && HeadRead(q, q1, r) && r.meth != CONNECT && !q1.flags.chunked && HasBody(q1)
    requires q1.contentLength < ULLONG_MAX && |s| - |Wire(r)| >= q1.contentLength
    ensures BeginsWithMessage(s, m, q)
  {
    hide Any, SizeOf, LegalTarget, LegalSpacing, AllAcceptable, Wire, HeadRead;
    var d := s[|Wire(r)|..][..q1.contentLength];
    m := Message(r, Sized(d));
    HeadSaysPlain(q, q1, r);
    SizedWire(d);
    PrefixThen(Wire(r), d, s);
  }

  lemma ChunkedMessage(q1: Parser, s: seq<byte>, r: Request, q: Parser, cs: seq<Chunk>, last: Chunk, trailers: seq<Header>, bare: bool)
      returns (m: Message)
    requires BeginsWith(s, r, q) && HeadRead(q, q1, r) && r.meth != CONNECT && q1.flags.chunked
    requires BodyUpTo(cs, last, trailers, bare, s[|Wire(r)|..])
    ensures BeginsWithMessage(s, m, q)
  {
    hide Any, SizeOf, LegalTarget, LegalSpacing, AllAcceptable, Wire, HeadRead, LegalSize, LegalTrailers, ChunkedWire, LegalChunks;
    m := Message(r, MessageBody.Chunked(cs, last, trailers, bare));
    HeadSaysPlain(q, q1, r);
    PrefixThen(Wire(r), ChunkedWire(cs, last, trailers, bare), s);
  }

  /** The message whose completion was reported, unless the request was one to connect. */
  lemma CompletedIsMessage(q: GoodParser, trace: seq<Event>, n: nat, s: seq<byte>, r: Request) returns (m: Message)
    requires q.state == StartReq && Completed(Over(Live(q, trace, n), s), trace) && BeginsWith(s, r, q) && r.meth != CONNECT
    ensures BeginsWithMessage(s, m, q)
  {
    hide Good, Over, Heads, Completions, HeadRead, LegalRequest, Wire, BeginsWithMessage, Reports, NotLess;
    var start, w := Live(q, trace, n), WireOf(r);
    var q1 := HeadReadTold(q, trace, n, r);
    Beginning(start, w, s);
    var head, rest := Over(start, w), s[|w|..];
    var t :| Heads(t) == Heads(trace) + 1 && Completions(t) == Completions(trace)
      && IntoBody(q1, t) == (head.q, head.trace, head.Live?);
    HeadSaysPlainly(q, q1, r);
    if !HasBody(q1) {
      m := NoBodyMessage(q1, s, r, q);
    } else if q1.flags.chunked {
      MoreReported(head, rest);
      var cs, last, trailers, bare := ChunkedFirst(head.q, t, head.n, rest, Reports(t));
      m := ChunkedMessage(q1, s, r, q, cs, last, trailers, bare);
    } else {
      BodyThere(head.q, t, head.n, rest);
      BodyLeft(head.q);
      m := SizedMessage(q1, s, r, q);
    }
  }

  function WireOf(r: Request): seq<byte>
    requires LegalRequest(r)
  {
    Wire(r)
  }

  lemma HeadSaysPlainly(q: Parser, q1: Parser, r: Request)
    requires LegalRequest(r) && HeadRead(q, q1, r)
    ensures q1.meth == r.meth
  {
    hide Any, HeadRead;
    HeadSaysPlain(q, q1, r);
  }

  lemma MoreReported(r: Run, data: seq<byte>)
    requires r != Failed && Completed(Over(r, data), r.trace)
    ensures Reported(Over(r, data), Reports(r.trace))
  {
    hide Over, Heads, Completions, Reports;
    CountsOver(r, data);
    TwoKinds(r.trace);
    TwoKinds(Over(r, data).trace);
  }

  /** A legal message is completed. */
  lemma MessageCompletes(q: GoodParser, trace: seq<Event>, n: nat, s: seq<byte>, m: Message)
    requires q.state == StartReq && Over(Live(q, trace, n), s) != Failed && BeginsWithMessage(s, m, q)
    ensures Completed(Over(Live(q, trace, n), s), trace)
  {
    hide Good, Over, Heads, Completions, LegalMessage, MessageWire, Wire, LedgerOf, MessageRead;
    OneMessage(q, trace, n, m);
    Beginning(Live(q, trace, n), MessageWire(m), s);
    var r := Over(Live(q, trace, n), MessageWire(m));
    MessageBooked(r, trace, n, m);
    LedgerBalances(trace);
    LedgerBalances(r.trace);
  }

  /** A request to connect is complete with its head. */
  lemma ConnectCompletes(q: GoodParser, trace: seq<Event>, n: nat, s: seq<byte>, r: Request)
    requires q.state == StartReq && Over(Live(q, trace, n), s) != Failed && BeginsWith(s, r, q) && r.meth == CONNECT
    ensures Completed(Over(Live(q, trace, n), s), trace)
  {
    hide Good, Over, Heads, Completions, HeadRead, LegalRequest, Wire, Emit;
    var start, w := Live(q, trace, n), WireOf(r);
    var q1 := HeadReadTold(q, trace, n, r);
    Beginning(start, w, s);
    var head := Over(start, w);
    var t :| Heads(t) == Heads(trace) + 1 && Completions(t) == Completions(trace)
      && IntoBody(q1, t) == (head.q, head.trace, head.Live?);
    HeadSaysPlainly(q, q1, r);
    CountsEmit(t, MessageComplete);
  }

  /**
    From between two messages, as long as nothing fails, a further message has been completed iff the input
    begins with the wire form of a legal message, head and body, or of a legal request to connect.
  */
  lemma MessageIff(q: GoodParser, trace: seq<Event>, n: nat, s: seq<byte>)
    requires q.state == StartReq && Over(Live(q, trace, n), s) != Failed
    ensures Completions(Over(Live(q, trace, n), s).trace) > Completions(trace) <==>
      (exists m :: BeginsWithMessage(s, m, q)) || (exists r :: BeginsWith(s, r, q) && r.meth == CONNECT)
  {
    hide Good, Over, Heads, Completions, BeginsWith, BeginsWithMessage, Reports;
    var start := Live(q, trace, n);
    if Completions(Over(start, s).trace) > Completions(trace) {
      MoreReported(start, s);
      var r := ReportedIsRequest(q, trace, n, s);
      if r.meth != CONNECT {
        var m := CompletedIsMessage(q, trace, n, s, r);
      }
    }
    if m :| BeginsWithMessage(s, m, q) {
      MessageCompletes(q, trace, n, s, m);
    }
    if r :| BeginsWith(s, r, q) && r.meth == CONNECT {
      ConnectCompletes(q, trace, n, s, r);
    }
  }

  /** The same for a new connection and input cut into calls in any way. */
  lemma LanguageOfPieces(pieces: seq<seq<byte>>)
    ensures Good(INITIAL)
    ensures var s, run := Concat(pieces), OverPieces(Live(INITIAL, [], 0), pieces);
      run != Failed ==>
        && (Heads(run.trace) > 0 <==> exists r :: BeginsWith(s, r, INITIAL))
        && (Completions(run.trace) > 0 <==>
             (exists m :: BeginsWithMessage(s, m, INITIAL)) || (exists r :: BeginsWith(s, r, INITIAL) && r.meth == CONNECT))
  {
    hide Good, Over, OverPieces, BeginsWith, BeginsWithMessage;
    InitialIsGood();
    PiecesLikeWhole(Live(INITIAL, [], 0), pieces);
    if OverPieces(Live(INITIAL, [], 0), pieces) != Failed {
      HeadIff(INITIAL, [], 0, Concat(pieces));
      MessageIff(INITIAL, [], 0, Concat(pieces));
    }
  }
}
