/** Header blocks and what follows them: the flags that many headers set, and the way into the body. */
module HttpHead {
  import opened Bytes
  import opened HttpTypes
  import opened HttpStep
  import opened HttpRun
  import opened HttpFeed
  import opened HttpNames
  import opened HttpTokens
  import opened HttpHeaders
  import opened HttpFolding

  function Lines(hs: seq<Header>): seq<byte> {
    if hs == [] then [] else Lines(hs[..|hs| - 1]) + Line(hs[|hs| - 1])
  }

  lemma {:induction false} LinesCons(h: Header, hs: seq<Header>)
    ensures Lines([h] + hs) == Line(h) + Lines(hs)
  {
    hide Line;
    if hs == [] {
      assert [h][..0] == [] && [h] + hs == [h];
      assert Lines([h]) == [] + Line(h) && Line(h) + [] == Line(h);
    } else {
      var before, last := hs[..|hs| - 1], hs[|hs| - 1];
      LinesCons(h, before);
      assert ([h] + hs)[..|hs|] == [h] + before;
      assert Line(h) + Lines(before) + Line(last) == Line(h) + (Lines(before) + Line(last));
    }
  }

  /** The callbacks that a header block makes. */
  function HeaderTrace(trace: seq<Event>, hs: seq<Header>): seq<Event> {
    if hs == [] then trace
    else
      var h := hs[|hs| - 1];
      Emit(Emit(HeaderTrace(trace, hs[..|hs| - 1]), Data(Field, h.name)), Data(Value, ValueOf(h)))
  }

  predicate Upgrades(h: Header) {
    ClassOfName(h.name) == Upgrading && h.first != []
  }

  predicate Chunks(h: Header) {
    ClassOfName(h.name) == Encoding && h.folds == [] && Says(h.first, CHUNKED)
  }

  predicate Sizes(h: Header) {
    ClassOfName(h.name) == Sizing
  }

  predicate AsksKeepAlive(h: Header) {
    ClassOfName(h.name) == Connecting && Asks(h.first, Texts(h.folds), KEEP_ALIVE)
  }

  predicate AsksClose(h: Header) {
    ClassOfName(h.name) == Connecting && Asks(h.first, Texts(h.folds), CLOSE)
  }

  predicate AsksUpgrade(h: Header) {
    ClassOfName(h.name) == Connecting && Asks(h.first, Texts(h.folds), UPGRADE)
  }

  predicate Any(hs: seq<Header>, p: Header -> bool) {
    exists i :: 0 <= i < |hs| && p(hs[i])
  }

  lemma AnySnoc(hs: seq<Header>, h: Header, p: Header -> bool)
    ensures Any(hs + [h], p) <==> Any(hs, p) || p(h)
  {
    if Any(hs, p) {
      var i :| 0 <= i < |hs| && p(hs[i]);
      assert p((hs + [h])[i]);
    }
    assert (hs + [h])[|hs|] == h;
  }

  /** The flags behind a header block. */
  predicate BlockFlags(f: Flags, f1: Flags, hs: seq<Header>) {
    && (f1.upgrade <==> f.upgrade || Any(hs, Upgrades))
    && (f1.chunked <==> f.chunked || Any(hs, Chunks))
    && (f1.contentLength <==> f.contentLength || Any(hs, Sizes))
    && f1.trailing == f.trailing
    && (f1.keepAlive <==> f.keepAlive || Any(hs, AsksKeepAlive))
    && (f1.close <==> f.close || Any(hs, AsksClose))
    && (f1.connectionUpgrade <==> f.connectionUpgrade || Any(hs, AsksUpgrade))
  }

  /** The Content-Length that the headers give, `none` if they give none. */
  function SizeOf(hs: seq<Header>, none: nat): nat {
    if hs == [] then none
    else
      var h := hs[|hs| - 1];
      if Sizes(h) then SizeIn(h.first) else SizeOf(hs[..|hs| - 1], none)
  }

  /** Every header can be taken in its turn. */
  predicate AllAcceptable(hs: seq<Header>, sized: bool) {
    hs != [] ==>
      var before := hs[..|hs| - 1];
      AllAcceptable(before, sized) && Acceptable(hs[|hs| - 1], sized || Any(before, Sizes))
  }

  /** What one header adds. */
  lemma HeaderAdds(f: Flags, f1: Flags, h: Header)
    requires LineFlags(ClassOfName(h.name), f, f1, h)
    ensures (f1.upgrade <==> f.upgrade || Upgrades(h)) && (f1.chunked <==> f.chunked || Chunks(h))
    ensures (f1.contentLength <==> f.contentLength || Sizes(h)) && f1.trailing == f.trailing
    ensures (f1.keepAlive <==> f.keepAlive || AsksKeepAlive(h)) && (f1.close <==> f.close || AsksClose(h))
    ensures f1.connectionUpgrade <==> f.connectionUpgrade || AsksUpgrade(h)
  {
    hide Says, Asks, ClassOfName, Heard, Texts;
    if ClassOfName(h.name) == Connecting {
      HeardAdds(f, h.first, Texts(h.folds));
    }
  }

  lemma HeardAdds(f: Flags, v: seq<byte>, more: seq<seq<byte>>)
    ensures var f1 := Heard(f, v, more);
      && f1 == f.(keepAlive := f1.keepAlive, close := f1.close, connectionUpgrade := f1.connectionUpgrade)
      && (f1.keepAlive <==> f.keepAlive || Asks(v, more, KEEP_ALIVE)) && (f1.close <==> f.close || Asks(v, more, CLOSE))
      && (f1.connectionUpgrade <==> f.connectionUpgrade || Asks(v, more, UPGRADE))
  {
    hide Asks;
  }

  /** One more line adds its own effect. */
  lemma FlagsSnoc(f: Flags, f1: Flags, f2: Flags, hs: seq<Header>, h: Header)
    requires BlockFlags(f, f1, hs) && LineFlags(ClassOfName(h.name), f1, f2, h)
    ensures BlockFlags(f, f2, hs + [h])
  {
    hide ClassOfName, LineFlags, Any, Upgrades, Chunks, Sizes, AsksKeepAlive, AsksClose, AsksUpgrade;
    HeaderAdds(f1, f2, h);
    AnySnoc(hs, h, Upgrades);
    AnySnoc(hs, h, Chunks);
    AnySnoc(hs, h, Sizes);
    AnySnoc(hs, h, AsksKeepAlive);
    AnySnoc(hs, h, AsksClose);
    AnySnoc(hs, h, AsksUpgrade);
  }

  ghost predicate BlockRead(q: Parser, r: Run, trace: seq<Event>, n: nat, hs: seq<Header>) {
    && r.Live? && r.trace == HeaderTrace(trace, hs) && r.n == n + |Lines(hs)|
    && r.q == q.(state := HeaderFieldStart, headerState := r.q.headerState, index := r.q.index, flags := r.q.flags,
                 contentLength := r.q.contentLength, nread := q.nread + |Lines(hs)|)
    && BlockFlags(q.flags, r.q.flags, hs)
    && r.q.contentLength == SizeOf(hs, q.contentLength)
  }

  lemma LineBegins(h: Header)
    requires h.name != [] && IsToken(h.name)
    ensures Line(h) != [] && !Blank(Line(h)[0])
  {
    assert Line(h)[0] == h.name[0];
  }

  /** One more header line behind a block that was read. */
  lemma BlockLine(q: Parser, r: Run, trace: seq<Event>, n: nat, before: seq<Header>, h: Header)
    requires BlockRead(q, r, trace, n, before) && Acceptable(h, q.flags.contentLength || Any(before, Sizes))
    requires Room(q, |Lines(before)| + |Line(h)|)
    ensures BlockRead(q, Settled(Over(r, Line(h))), trace, n, before + [h])
  {
    hide Advance, MethodString, Emit, Settled, Good, BlockFlags, LineFlags, Acceptable, Line, Over;
    SizedSoFar(q.flags, r.q.flags, before);
    HeaderLine(r.q, r.trace, r.n, h);
    FlagsSnoc(q.flags, r.q.flags, Settled(Over(r, Line(h))).q.flags, before, h);
    assert (before + [h])[..|before|] == before;
  }

  /** A block of headers, in trailers as well as in front of the body: all are delivered, and the flags are the sum of their effects. */
  lemma {:induction false} HeaderBlock(q: GoodParser, trace: seq<Event>, n: nat, hs: seq<Header>)
    requires q.state == HeaderFieldStart && AllAcceptable(hs, q.flags.contentLength) && Room(q, |Lines(hs)|)
    ensures BlockRead(q, Settled(Over(Live(q, trace, n), Lines(hs))), trace, n, hs)
  {
    hide Advance, MethodString, Settled, Good, Acceptable, Line, BlockRead, Any, Over;
    var start := Live(q, trace, n);
    if hs == [] {
      EmptyBlock(q, trace, n);
    } else {
      var before, h := hs[..|hs| - 1], hs[|hs| - 1];
      HeaderBlock(q, trace, n, before);
      var r := Over(start, Lines(before));
      OverAppend(start, Lines(before), Line(h));
      AcceptableBegins(h, q.flags.contentLength || Any(before, Sizes));
      SettledOver(r, Line(h));
      BlockLine(q, Settled(r), trace, n, before, h);
      assert before + [h] == hs;
    }
  }

  lemma EmptyBlock(q: GoodParser, trace: seq<Event>, n: nat)
    requires q.state == HeaderFieldStart
    ensures BlockRead(q, Settled(Over(Live(q, trace, n), Lines([]))), trace, n, [])
  {
    hide Advance, Good, BlockFlags, Settled;
    OverNone(Live(q, trace, n));
    StaysSettled(Live(q, trace, n));
    NoHeaders(q.flags);
  }

  lemma StaysSettled(r: Run)
    requires r.Live? && r.q.state == HeaderFieldStart
    ensures Settled(r) == r
  {}

  lemma NoHeaders(f: Flags)
    ensures BlockFlags(f, f, [])
  {}

  lemma SizedSoFar(f: Flags, f1: Flags, hs: seq<Header>)
    requires BlockFlags(f, f1, hs)
    ensures f1.contentLength <==> f.contentLength || Any(hs, Sizes)
  {}

  lemma AcceptableBegins(h: Header, sized: bool)
    requires Acceptable(h, sized)
    ensures Line(h) != [] && !Blank(Line(h)[0])
  {
    LineBegins(h);
  }

  // ---- The blank line --------------------------------------------------------------------------

  /** Whether another protocol follows the request, as the flags say. */
  predicate AsksForUpgrade(q: Parser) {
    (q.flags.upgrade && q.flags.connectionUpgrade) || q.meth == CONNECT
  }

  predicate HasBody(q: Parser) {
    q.flags.chunked || (q.contentLength > 0 && q.contentLength != ULLONG_MAX)
  }

  /** The parser behind the blank line, in state `s`. */
  function HeadDone(q: Parser, s: State): Parser {
    q.(nread := 0, upgrade := AsksForUpgrade(q), state := s)
  }

  function HeadersEvent(q: Parser): Event {
    HeadersComplete(q.meth, q.major, q.minor, AsksForUpgrade(q), SizingOf(q.flags.chunked, q.contentLength))
  }

  /** What follows `on_headers_complete`: the parser, the callbacks, and whether it goes on. */
  function IntoBody(q: Parser, t: seq<Event>): (Parser, seq<Event>, bool) {
    if AsksForUpgrade(q) && (q.meth == CONNECT || !HasBody(q)) then (HeadDone(q, NewMessage(q)), Emit(t, MessageComplete), false)
    else if q.flags.chunked then (HeadDone(q, ChunkSizeStart), t, true)
    else if HasBody(q) then (HeadDone(q, BodyIdentity), t, true)
    else (HeadDone(q, NewMessage(q)), Emit(t, MessageComplete), true)
  }

  /** What the blank line behind the headers comes to, unless it is refused. */
  function BlankLine(q: Parser, trace: seq<Event>): Option<(Parser, seq<Event>, bool)> {
    if q.flags.chunked && q.flags.contentLength then None else Some(IntoBody(q, Emit(trace, HeadersEvent(q))))
  }

  lemma BlankLineRead(q: GoodParser, trace: seq<Event>, n: nat, bare: bool)
    requires q.state == HeaderFieldStart && !q.flags.trailing && Room(q, |Ending(bare)|)
    ensures match BlankLine(q, trace)
      case None => Over(Live(q, trace, n), Ending(bare)) == Failed
      case Some((q1, t, live)) =>
        && Good(q1)
        && Over(Live(q, trace, n), Ending(bare))
          == if live then Live(q1, t, n + |Ending(bare)|) else Left(q1, t, n + |Ending(bare)|)
  {
    hide Arm, Advance, MethodString, Emit, HasBody, AsksForUpgrade, IntoBody, Good;
    var k := |Ending(bare)|;
    var q1 := q.(nread := q.nread + k - 1, state := HeadersAlmostDone);
    IntoAlmostDone(q, trace, n, bare);
    AlmostDoneRead(q1, trace, n + k - 1);
    SameBody(q, q1, Emit(trace, HeadersEvent(q)));
  }

  /** The blank line up to its line feed. */
  lemma IntoAlmostDone(q: GoodParser, trace: seq<Event>, n: nat, bare: bool)
    requires q.state == HeaderFieldStart && Room(q, |Ending(bare)|)
    ensures var q1 := q.(nread := q.nread + |Ending(bare)| - 1, state := HeadersAlmostDone);
      && Good(q1)
      && Over(Live(q, trace, n), Ending(bare)) == Advance(Live(q1, trace, n + |Ending(bare)| - 1), LF)
  {
    hide Arm, Advance, MethodString, EmitAll, Good, Over;
    EndingOver(Live(q, trace, n), bare);
    var q0 := q.(nread := q.nread + 1);
    BlankIsGood(q);
    if bare {
      FieldStartArmAt(q0, LF);
      TakesAgain(q, trace, n, LF, q0.(state := HeadersAlmostDone), NoMark, []);
      assert OwnData(NoMark, LF) + [] == [];
      EmitAllNone(trace);
    } else {
      FieldStartArmAt(q0, CR);
      TakesQuietly(q, trace, n, CR, q0.(state := HeadersAlmostDone));
    }
  }

  lemma BlankIsGood(q: GoodParser)
    requires q.state == HeaderFieldStart
    ensures Good(q.(state := HeadersAlmostDone))
  {}

  lemma SameBody(q: Parser, q1: Parser, t: seq<Event>)
    requires q1 == q.(nread := q1.nread, state := q1.state, upgrade := q1.upgrade)
    ensures AsksForUpgrade(q1) == AsksForUpgrade(q) && IntoBody(q1, t) == IntoBody(q, t)
  {}

  lemma DoneIsGood(q: GoodParser)
    requires q.state == HeadersAlmostDone
    ensures Good(q.(state := HeadersDone, upgrade := AsksForUpgrade(q)))
  {}

  /** The line feed of the blank line: `on_headers_complete`, and on into the body. */
  lemma AlmostDoneRead(q: GoodParser, trace: seq<Event>, n: nat)
    requires q.state == HeadersAlmostDone && !q.flags.trailing && Room(q, 1)
    ensures match BlankLine(q, trace)
      case None => Advance(Live(q, trace, n), LF) == Failed
      case Some((q1, t, live)) =>
        Good(q1) && Advance(Live(q, trace, n), LF) == if live then Live(q1, t, n + 1) else Left(q1, t, n + 1)
  {
    hide Arm, Advance, MethodString, Emit, IntoBody, Good, HeadersEvent, AsksForUpgrade;
    if q.flags.chunked && q.flags.contentLength {
      HeadersAlmostDoneArmAt(q.(nread := q.nread + 1), LF);
      Refuses(q, trace, n, LF);
    } else {
      DoneIsGood(q);
      HeadersNoted(q, trace, n);
      var q2 := q.(state := HeadersDone, upgrade := AsksForUpgrade(q));
      SameBody(q, q2, Emit(trace, HeadersEvent(q)));
      HeadersDoneRead(q2, Emit(trace, HeadersEvent(q)), n);
    }
  }

  /** `on_headers_complete`, before the line feed is read once more. */
  lemma HeadersNoted(q: GoodParser, trace: seq<Event>, n: nat)
    requires q.state == HeadersAlmostDone && !q.flags.trailing && Room(q, 1) && !(q.flags.chunked && q.flags.contentLength)
    ensures var q2 := q.(state := HeadersDone, upgrade := AsksForUpgrade(q));
      Good(q2) && Advance(Live(q, trace, n), LF) == Advance(Live(q2, Emit(trace, HeadersEvent(q)), n), LF)
  {
    hide Arm, Advance, MethodString, Emit, EmitAll, Good;
    var q1 := q.(nread := q.nread + 1);
    HeadersAlmostDoneArmAt(q1, LF);
    DoneIsGood(q);
    TakesAgain(q, trace, n, LF, q1.(state := HeadersDone, upgrade := AsksForUpgrade(q)), NoMark, [HeadersEvent(q)]);
    assert OwnData(NoMark, LF) + [HeadersEvent(q)] == [HeadersEvent(q)];
    EmitAllOne(trace, HeadersEvent(q));
  }

  lemma HeadersDoneRead(q: GoodParser, t: seq<Event>, n: nat)
    requires q.state == HeadersDone && q.upgrade == AsksForUpgrade(q) && Room(q, 1)
    ensures var (q1, t1, live) := IntoBody(q, t);
      Good(q1) && Advance(Live(q, t, n), LF) == if live then Live(q1, t1, n + 1) else Left(q1, t1, n + 1)
  {
    hide Arm, Advance, MethodString, Emit, Good;
    var q1 := q.(nread := q.nread + 1);
    HeadersDoneArmAt(q1, LF);
    if AsksForUpgrade(q) && (q.meth == CONNECT || !HasBody(q)) {
      Leaves(q, t, n, LF, HeadDone(q, NewMessage(q)), [MessageComplete]);
      EmitAllOne(t, MessageComplete);
    } else if q.flags.chunked {
      TakesQuietly(q, t, n, LF, HeadDone(q, ChunkSizeStart));
    } else if HasBody(q) {
      TakesQuietly(q, t, n, LF, HeadDone(q, BodyIdentity));
    } else {
      TakesNoting(q, t, n, LF, HeadDone(q, NewMessage(q)), MessageComplete);
    }
  }
}
