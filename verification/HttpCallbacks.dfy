/**
  The order of the callbacks, over every run: whatever bytes arrive, the callbacks follow the grammar of
  a request, and no chunk and no body is complete before exactly as many bytes as announced were delivered.
*/
module HttpCallbacks {
  import opened Bytes
  import opened HttpTypes
  import opened HttpStep
  import opened HttpRun
  import opened HttpNames
  import opened HttpHeaders
  import opened HttpBody

  /** Where a sequence of callbacks stands in the grammar. */
  datatype Phase =
    | Between                  // before message_begin or behind message_complete
    | Begun                    // behind message_begin
    | Target                   // the URL is being delivered or was
    | Naming(trailer: bool)    // a header name is being delivered or was
    | Valued(trailer: bool)    // its value is being delivered or was
    | Open(sizing: Sizing, tunnel: bool) // behind headers_complete, of CONNECT if `tunnel`
    | Identity(left: nat)      // in a body of Content-Length bytes of which so many have not been delivered
    | InChunk(left: nat)       // in such a chunk
    | Chunks                   // between two chunks
    | LastChunk                // behind the header of the chunk of size zero
    | Ended                    // behind the completion of that chunk
    | Broken

  function AfterData(p: Phase, k: Kind, size: nat): Phase {
    match k
    case Url => if p == Begun || p == Target then Target else Broken
    case Field =>
      if p == Target || p == Naming(false) || p == Valued(false) then Naming(false)
      else if p == LastChunk || p == Naming(true) || p == Valued(true) then Naming(true)
      else Broken
    case Value => if p.Naming? || p.Valued? then Valued(p.trailer) else Broken
    case Body =>
      if p.Open? && p.sizing.OfLength? && !p.tunnel && size <= p.sizing.size then Identity(p.sizing.size - size)
      else if p.Identity? && size <= p.left then Identity(p.left - size)
      else if p.InChunk? && size <= p.left then InChunk(p.left - size)
      else Broken
  }

  /** Behind the headers of a message without a body. */
  predicate Bodiless(p: Phase) {
    p.Open? && (p.tunnel || p.sizing == Unsaid || p.sizing == OfLength(0))
  }

  function After(p: Phase, e: Event): Phase {
    match e
    case Data(k, bytes) => AfterData(p, k, |bytes|)
    case MessageBegin => if p == Between then Begun else Broken
    case HeadersComplete(m, _, _, _, sizing) =>
      if p == Target || p == Valued(false) then Open(sizing, m == CONNECT) else Broken
    case ChunkHeader(length) =>
      if p != Open(InChunks, false) && p != Chunks then Broken else if length == 0 then LastChunk else InChunk(length)
    case ChunkComplete =>
      if p == InChunk(0) then Chunks else if p == LastChunk || p == Valued(true) then Ended else Broken
    case MessageComplete => if Bodiless(p) || p == Identity(0) || p == Ended then Between else Broken
  }

  /** The phase that the callbacks made so far have led to. */
  function PhaseOf(trace: seq<Event>): Phase {
    if trace == [] then Between else After(PhaseOf(trace[..|trace| - 1]), trace[|trace| - 1])
  }

  /** The grammar does not see how data is cut. */
  lemma PhaseEmit(trace: seq<Event>, e: Event)
    ensures PhaseOf(Emit(trace, e)) == After(PhaseOf(trace), e)
  {
    var t := Emit(trace, e);
    if e.Data? && trace != [] && trace[|trace| - 1].Data? && trace[|trace| - 1].kind == e.kind {
      assert t[..|t| - 1] == trace[..|trace| - 1];
    } else {
      assert t[..|t| - 1] == trace;
    }
  }

  /** The phases at the start of a line. */
  predicate AtLine(trailing: bool, p: Phase) {
    if trailing then p == LastChunk || p == Valued(true) else p == Target || p == Valued(false)
  }

  /** The phases that go with a parser's state. */
  predicate Fits(q: Parser, p: Phase) {
    match q.state
    case Dead | StartReq => p == Between
    case ReqMethod | ReqSpacesBeforeUrl => p == Begun && !q.flags.trailing
    case HeaderFieldStart | HeadersAlmostDone => AtLine(q.flags.trailing, p)
    case HeaderField | HeaderValueDiscardWs | HeaderValueDiscardWsAlmostDone | HeaderValueDiscardLws =>
      p == Naming(q.flags.trailing)
    case HeaderValueStart | HeaderValue | HeaderValueLws | HeaderAlmostDone => p == Valued(q.flags.trailing)
    case HeadersDone => p == Open(SizingOf(q.flags.chunked, q.contentLength), q.meth == CONNECT) && (q.meth == CONNECT ==> q.upgrade)
    case ChunkSizeStart | ChunkSize | ChunkParameters | ChunkSizeAlmostDone =>
      p == Open(InChunks, false) || p == Chunks
    case ChunkData => p == InChunk(q.contentLength)
    case ChunkDataAlmostDone | ChunkDataDone => p == InChunk(0)
    case BodyIdentity => p == Open(OfLength(q.contentLength), false) || p == Identity(q.contentLength)
    case MessageDone => p == Identity(0) || p == Ended
    case _ => p == Target && !q.flags.trailing
  }

  /** The callbacks of an arm when its byte is the whole input; there is at most one. */
  function Made(a: Act, ch: byte): seq<Event>
    requires !a.Bad?
  {
    if a.Leave? then a.notes else OwnData(a.mark, ch) + a.notes
  }

  predicate Follows(a: Act, ch: byte, p: Phase) {
    !a.Bad? ==>
      var es := Made(a, ch);
      |es| <= 1 && Fits(a.q, if es == [] then p else After(p, es[0]))
  }

  lemma StartArms(q: Parser, ch: byte, p: Phase)
    requires Fits(q, p)
    ensures q.state == StartReq ==> Follows(StartReqArm(q, ch), ch, p)
    ensures q.state == ReqMethod ==> Follows(MethodArm(q, ch), ch, p)
  {
    hide MethodString, SwitchMethod, FirstMethod, IsAlpha, At;
  }

  lemma UrlStartArms(q: Parser, ch: byte, p: Phase)
    requires Fits(q, p) && q.state == ReqSpacesBeforeUrl
    ensures Follows(UrlStartArm(q, ch), ch, p)
  {
    hide MethodString, ParseUrlChar;
  }

  lemma UrlArms(q: Parser, ch: byte, p: Phase)
    requires Fits(q, p) && UrlState(q.state)
    ensures Follows(UrlArm(q, ch), ch, p)
  {
    hide MethodString, ParseUrlChar, Fits;
    UrlFits(q, p);
    var a := UrlArm(q, ch);
    if !a.Bad? {
      FitsBehindUrl(a.q, p);
    }
  }

  lemma UrlFits(q: Parser, p: Phase)
    requires Fits(q, p) && UrlState(q.state)
    ensures p == Target && !q.flags.trailing
  {}

  lemma FitsBehindUrl(q: Parser, p: Phase)
    requires p == Target && !q.flags.trailing
    requires UrlState(q.state) || q.state == ReqHttpStart || q.state == ReqLineAlmostDone || q.state == HeaderFieldStart
    ensures Fits(q, p)
  {}

  lemma VersionArms(q: Parser, ch: byte, p: Phase)
    requires Fits(q, p) && VersionState(q.state)
    ensures Follows(VersionArm(q, ch), ch, p)
  {
    hide MethodString;
  }

  lemma FieldStartArms(q: Parser, ch: byte, p: Phase)
    requires Fits(q, p) && q.state == HeaderFieldStart
    ensures Follows(FieldStartArm(q, ch), ch, p)
  {
    hide MethodString, TokenOf, FirstNameState, Fits;
    LineFits(q, p);
    var a := FieldStartArm(q, ch);
    if !a.Bad? {
      FitsLine(a.q, if a.mark == Mark(Field) then After(p, Data(Field, [ch])) else p);
    }
  }

  lemma LineFits(q: Parser, p: Phase)
    requires Fits(q, p) && q.state == HeaderFieldStart
    ensures AtLine(q.flags.trailing, p)
  {}

  lemma FitsLine(q: Parser, p: Phase)
    requires if q.state == HeaderField then p == Naming(q.flags.trailing) else q.state == HeadersAlmostDone && AtLine(q.flags.trailing, p)
    ensures Fits(q, p)
  {}

  lemma FieldArms(q: Parser, ch: byte, p: Phase)
    requires Fits(q, p) && q.state == HeaderField
    ensures Follows(FieldArm(q, ch), ch, p)
  {
    hide MethodString, MatchName, TokenOf;
    MatchNameShape(q, TokenOf(ch), ch);
  }

  lemma LengthShape(q: Parser, ch: byte)
    requires q.headerState == ContentLength || q.headerState == ContentLengthNum || q.headerState == ContentLengthWs
    ensures MatchValue(q, ch).Some? ==>
      var q1 := MatchValue(q, ch).value; q1 == q.(headerState := q1.headerState, contentLength := q1.contentLength)
  {
    hide At, TokenOf, MatchToken;
  }

  lemma ValueShape(q: Parser, ch: byte)
    ensures MatchValue(q, ch).Some? ==>
      var q1 := MatchValue(q, ch).value; q1.state == q.state && q1.flags.trailing == q.flags.trailing
  {
    hide MatchValue, MatchToken;
    if q.headerState == ContentLength || q.headerState == ContentLengthNum || q.headerState == ContentLengthWs {
      LengthShape(q, ch);
    } else {
      MatchValueShape(q, ch);
      TokenShape(q, ch);
    }
  }

  lemma WordShape(q: Parser, word: string, c: byte, whole: HeaderState, otherwise: HeaderState)
    ensures MatchWord(q, word, c, whole, otherwise).flags == q.flags
  {
    hide At;
  }

  lemma TokenShape(q: Parser, ch: byte)
    ensures MatchToken(q, ch, Lower(ch)).flags.trailing == q.flags.trailing
  {
    hide MatchWord, TokenOf, Lower;
    var c := Lower(ch);
    match q.headerState {
      case MatchingChunked => WordShape(q, CHUNKED, c, Chunked, General);
      case MatchingKeepAlive => WordShape(q, KEEP_ALIVE, c, KeepAlive, Token);
      case MatchingClose => WordShape(q, CLOSE, c, Close, Token);
      case MatchingConnectionUpgrade => WordShape(q, UPGRADE, c, ConnectionUpgrade, Token);
      case _ =>
    }
  }

  lemma ValueArms(q: Parser, ch: byte, p: Phase)
    requires Fits(q, p) && q.state == HeaderValue
    ensures Follows(ValueArm(q, ch), ch, p)
  {
    hide MethodString, MatchValue, IsHeaderChar;
    ValueShape(q, ch);
  }

  lemma ValueStartArms(q: Parser, ch: byte, p: Phase)
    requires Fits(q, p) && (q.state == HeaderValueStart || q.state == HeaderValueDiscardWs)
    ensures Follows(ValueStartArm(q, ch), ch, p)
  {
    hide ValueStartArm, Fits;
    ValueStartShape(q, ch);
    ValueFits(q, p);
    if !ValueStartArm(q, ch).Bad? {
      FitsValue(ValueStartArm(q, ch).q, After(p, Data(Value, [ch])));
    }
  }

  /** A value start that is not refused begins to collect a value. */
  lemma ValueStartShape(q: Parser, ch: byte)
    ensures var a := ValueStartArm(q, ch);
      !a.Bad? ==>
        && a.Next? && a.mark == Mark(Value) && a.notes == []
        && a.q.state == HeaderValue && a.q.flags.trailing == q.flags.trailing
  {}

  lemma ValueFits(q: Parser, p: Phase)
    requires Fits(q, p) && (q.state == HeaderValueStart || q.state == HeaderValueDiscardWs)
    ensures p == Naming(q.flags.trailing) || p == Valued(q.flags.trailing)
  {}

  lemma FitsValue(q: Parser, p: Phase)
    requires q.state == HeaderValue && p == Valued(q.flags.trailing)
    ensures Fits(q, p)
  {}

  lemma EdgeArms(q: Parser, ch: byte, p: Phase)
    requires Fits(q, p)
    requires q.state == HeaderValueDiscardWs || q.state == HeaderValueDiscardWsAlmostDone || q.state == HeaderAlmostDone
    ensures Follows(ValueEdgeArm(q, ch), ch, p)
  {
    hide MethodString, ValueStartArm, EndFlags, Follows, ValueEdgeArm, Fits;
    if q.state == HeaderValueDiscardWs {
      SpaceArms(q, ch, p);
    } else {
      LineFeedArms(q, ch, p);
    }
  }

  lemma SpaceArms(q: Parser, ch: byte, p: Phase)
    requires Fits(q, p) && q.state == HeaderValueDiscardWs
    ensures Follows(ValueEdgeArm(q, ch), ch, p)
  {
    hide MethodString, ValueStartArm, EndFlags;
    ValueStartArms(q, ch, p);
  }

  lemma LineFeedArms(q: Parser, ch: byte, p: Phase)
    requires Fits(q, p) && (q.state == HeaderValueDiscardWsAlmostDone || q.state == HeaderAlmostDone)
    ensures Follows(ValueEdgeArm(q, ch), ch, p)
  {
    hide MethodString, ValueStartArm, EndFlags;
  }

  lemma LineEndArms(q: Parser, ch: byte, p: Phase)
    requires Fits(q, p) && (q.state == HeaderValueDiscardLws || q.state == HeaderValueLws)
    ensures Follows(ValueEdgeArm(q, ch), ch, p)
  {
    hide MethodString, ValueStartArm, EndFlags, Fits;
    EndFlagsKeep(q);
    LineEndFits(q, p);
    var a := ValueEdgeArm(q, ch);
    if !a.Bad? {
      FitsLineEnd(a.q, if a.mark == MarkFlush(Value) then After(p, Data(Value, [])) else p);
    }
  }

  lemma LineEndFits(q: Parser, p: Phase)
    requires Fits(q, p) && (q.state == HeaderValueDiscardLws || q.state == HeaderValueLws)
    ensures p == if q.state == HeaderValueLws then Valued(q.flags.trailing) else Naming(q.flags.trailing)
  {}

  lemma FitsLineEnd(q: Parser, p: Phase)
    requires || (q.state == HeaderValueDiscardWs && p == Naming(q.flags.trailing))
             || ((q.state == HeaderFieldStart || q.state == HeaderValueStart) && p == Valued(q.flags.trailing))
    ensures Fits(q, p)
  {}

  lemma AlmostDoneArms(q: Parser, ch: byte, p: Phase)
    requires Fits(q, p) && q.state == HeadersAlmostDone
    ensures Follows(HeadersAlmostDoneArm(q, ch), ch, p)
  {
    hide MethodString, Fits, SizingOf;
    AlmostDoneFits(q, p);
    var a := HeadersAlmostDoneArm(q, ch);
    if !a.Bad? {
      FitsDone(a.q, After(p, a.notes[0]));
    }
  }

  lemma AlmostDoneFits(q: Parser, p: Phase)
    requires Fits(q, p) && q.state == HeadersAlmostDone
    ensures AtLine(q.flags.trailing, p)
  {}

  lemma FitsDone(q: Parser, p: Phase)
    requires || (q.state == MessageDone && p == Ended)
             || (&& q.state == HeadersDone && p == Open(SizingOf(q.flags.chunked, q.contentLength), q.meth == CONNECT)
                 && (q.meth == CONNECT ==> q.upgrade))
    ensures Fits(q, p)
  {}

  lemma HeadersDoneArms(q: Parser, ch: byte, p: Phase)
    requires Fits(q, p) && q.state == HeadersDone
    ensures Follows(HeadersDoneArm(q, ch), ch, p)
  {
    hide MethodString, NewMessage, Fits;
    OpenFits(q, p);
    EndStates(q.(nread := 0));
    var a := HeadersDoneArm(q, ch);
    if !a.Bad? {
      FitsOpened(a.q, if a.notes == [] then p else After(p, MessageComplete));
    }
  }

  lemma OpenFits(q: Parser, p: Phase)
    requires Fits(q, p) && q.state == HeadersDone
    ensures p == Open(SizingOf(q.flags.chunked, q.contentLength), q.meth == CONNECT) && (q.meth == CONNECT ==> q.upgrade)
  {}

  lemma FitsOpened(q: Parser, p: Phase)
    requires || (q.state == ChunkSizeStart && p == Open(InChunks, false))
             || (q.state == BodyIdentity && p == Open(OfLength(q.contentLength), false))
             || ((q.state == StartReq || q.state == Dead) && p == Between)
    ensures Fits(q, p)
  {}

  lemma MessageDoneArms(q: Parser, ch: byte, p: Phase)
    requires Fits(q, p) && q.state == MessageDone
    ensures Follows(MessageDoneArm(q), ch, p)
  {
    hide NewMessage;
    EndStates(q);
    DoneFits(q, p);
    assert MessageDoneArm(q).q.state == NewMessage(q);
  }

  lemma EndStates(q: Parser)
    ensures NewMessage(q) == StartReq || NewMessage(q) == Dead
  {
    hide ShouldKeepAlive;
  }

  lemma DoneFits(q: Parser, p: Phase)
    requires Fits(q, p) && q.state == MessageDone
    ensures After(p, MessageComplete) == Between
  {}

  lemma IdentityArms(q: Parser, ch: byte, p: Phase)
    requires Fits(q, p) && q.state == BodyIdentity && q.contentLength > 0
    ensures Follows(BodyArm(q), ch, p)
  {
    hide MethodString, Fits, After;
    BodyArmMade(q, ch);
    IdentityNext(q, ch, p);
    FitsBody(BodyArm(q).q, After(p, Data(Body, [ch])));
  }

  /** The arm of a body delivers its byte and counts it. */
  lemma BodyArmMade(q: Parser, ch: byte)
    requires BodyState(q.state) && q.contentLength > 0
    ensures var a := BodyArm(q);
      && !a.Bad? && Made(a, ch) == [Data(Body, [ch])] && a.q.contentLength == q.contentLength - 1
      && a.q.state == if a.q.contentLength > 0 then q.state else if q.state.BodyIdentity? then MessageDone else ChunkDataAlmostDone
  {}

  lemma IdentityNext(q: Parser, ch: byte, p: Phase)
    requires Fits(q, p) && q.state == BodyIdentity && q.contentLength > 0
    ensures After(p, Data(Body, [ch])) == Identity(q.contentLength - 1)
  {}

  lemma ChunkNext(q: Parser, ch: byte, p: Phase)
    requires Fits(q, p) && q.state == ChunkData && q.contentLength > 0
    ensures After(p, Data(Body, [ch])) == InChunk(q.contentLength - 1)
  {}

  lemma FitsBody(q: Parser, p: Phase)
    requires || (p == Identity(q.contentLength) && q.state == if q.contentLength > 0 then BodyIdentity else MessageDone)
             || (p == InChunk(q.contentLength) && q.state == if q.contentLength > 0 then ChunkData else ChunkDataAlmostDone)
    ensures Fits(q, p)
  {}

  lemma ChunkDataArms(q: Parser, ch: byte, p: Phase)
    requires Fits(q, p) && q.state == ChunkData && q.contentLength > 0
    ensures Follows(BodyArm(q), ch, p)
  {
    hide MethodString, Fits, After;
    BodyArmMade(q, ch);
    ChunkNext(q, ch, p);
    FitsBody(BodyArm(q).q, After(p, Data(Body, [ch])));
  }

  lemma SizeArms(q: Parser, ch: byte, p: Phase)
    requires Fits(q, p) && (q.state == ChunkSizeStart || q.state == ChunkSize || q.state == ChunkParameters)
    ensures Follows(ChunkArm(q, ch), ch, p)
  {
    hide MethodString, Unhex;
    UnhexRange(ch);
  }

  lemma SizeEndArms(q: Parser, ch: byte, p: Phase)
    requires Fits(q, p) && q.state == ChunkSizeAlmostDone
    ensures Follows(ChunkArm(q, ch), ch, p)
  {
    hide MethodString, Unhex;
  }

  lemma ChunkEndArms(q: Parser, ch: byte, p: Phase)
    requires Fits(q, p) && (q.state == ChunkDataAlmostDone || q.state == ChunkDataDone)
    ensures Follows(ChunkArm(q, ch), ch, p)
  {
    hide MethodString, Unhex;
  }

  lemma ChunkArms(q: Parser, ch: byte, p: Phase)
    requires Fits(q, p) && ChunkState(q.state)
    ensures Follows(ChunkArm(q, ch), ch, p)
  {
    hide MethodString, Unhex, Follows, Fits, ChunkArm;
    if q.state == ChunkSizeAlmostDone {
      SizeEndArms(q, ch, p);
    } else if q.state == ChunkDataAlmostDone || q.state == ChunkDataDone {
      ChunkEndArms(q, ch, p);
    } else {
      SizeArms(q, ch, p);
    }
  }

  /** Every arm makes a callback that the grammar allows, or none, or errs. */
  lemma ArmFollows(q: Parser, ch: byte, p: Phase)
    requires AtSwitch(q) && Fits(q, p)
    ensures Follows(Arm(q, ch), ch, p)
  {
    hide AtSwitch, MethodString;
    match q.state {
      case StartReq | ReqMethod => StartArms(q, ch, p);
      case HeaderFieldStart => FieldStartArms(q, ch, p);
      case HeaderField => FieldArms(q, ch, p);
      case HeaderValue => ValueArms(q, ch, p);
      case HeaderValueStart => ValueStartArms(q, ch, p);
      case HeaderValueDiscardWs | HeaderValueDiscardWsAlmostDone | HeaderAlmostDone => EdgeArms(q, ch, p);
      case HeaderValueDiscardLws | HeaderValueLws => LineEndArms(q, ch, p);
      case ChunkSizeStart | ChunkSize | ChunkParameters | ChunkSizeAlmostDone | ChunkDataAlmostDone
         | ChunkDataDone => ChunkArms(q, ch, p);
      case BodyIdentity =>
        LengthsAtSwitch(q);
        IdentityArms(q, ch, p);
      case ChunkData =>
        LengthsAtSwitch(q);
        ChunkDataArms(q, ch, p);
      case HeadersAlmostDone => AlmostDoneArms(q, ch, p);
      case HeadersDone => HeadersDoneArms(q, ch, p);
      case MessageDone => MessageDoneArms(q, ch, p);
      case Dead =>
      case ReqHttpStart | ReqHttpH | ReqHttpHT | ReqHttpHTT | ReqHttpHTTP | ReqHttpI | ReqHttpIC
         | ReqHttpMajor | ReqHttpDot | ReqHttpMinor | ReqHttpEnd | ReqLineAlmostDone => VersionArms(q, ch, p);
      case ReqSpacesBeforeUrl => UrlStartArms(q, ch, p);
      case _ => UrlArms(q, ch, p);
    }
  }

  lemma {:induction false} ExecFollows(q: Parser, ch: byte, trace: seq<Event>)
    requires AtSwitch(q) && Fits(q, PhaseOf(trace))
    ensures var s := Exec(q, ch); !s.Erred? ==> Fits(s.q, PhaseOf(EmitAll(trace, s.events)))
    decreases Rank(q.state)
  {
    hide Arm, AtSwitch, Good, Fits, After, Emit, EmitAll, PhaseOf, MethodString, MarksAsStates;
    LengthsAtSwitch(q);
    var a := Arm(q, ch);
    ArmKeeps(q, ch);
    ArmFollows(q, ch, PhaseOf(trace));
    if !a.Bad? {
      var es := Made(a, ch);
      MadeFits(trace, es);
      if a.Again? {
        GoodAtSwitch(a.q);
        ExecFollows(a.q, ch, EmitAll(trace, es));
        var s := Exec(a.q, ch);
        if !s.Erred? {
          EmitAllAppend(trace, es, s.events);
        }
      }
    }
  }

  lemma MadeFits(trace: seq<Event>, es: seq<Event>)
    requires |es| <= 1
    ensures PhaseOf(EmitAll(trace, es)) == if es == [] then PhaseOf(trace) else After(PhaseOf(trace), es[0])
  {
    if |es| == 1 {
      assert es == [es[0]];
      EmitAllOne(trace, es[0]);
      PhaseEmit(trace, es[0]);
    }
  }

  predicate RunFits(r: Run) {
    !r.Failed? ==> Fits(r.q, PhaseOf(r.trace))
  }

  lemma AdvanceFollows(r: Run, ch: byte)
    requires RunFits(r)
    ensures RunFits(Advance(r, ch))
  {
    hide Exec, Good, AtSwitch, EmitAll, PhaseOf, MethodString;
    if r.Live? && (ParsingHeader(r.q.state) ==> Counted(r.q).nread <= MAX_HEADER_SIZE) {
      GoodAtSwitch(r.q);
      CountWithinBudget(r.q);
      CountKeeps(r.q);
      CountFits(r.q, PhaseOf(r.trace));
      ExecFollows(Counted(r.q), ch, r.trace);
    }
  }

  lemma CountWithinBudget(q: Parser)
    requires AtSwitch(q) && (ParsingHeader(q.state) ==> Counted(q).nread <= MAX_HEADER_SIZE)
    ensures Counted(q).nread <= MAX_HEADER_SIZE
  {}

  lemma CountFits(q: Parser, p: Phase)
    requires Fits(q, p)
    ensures Fits(Counted(q), p)
  {}

  lemma {:induction false} RunFollows(r: Run, data: seq<byte>, i: nat)
    requires RunFits(r) && i <= |data|
    ensures RunFits(Upto(r, data, i))
  {
    hide Advance, RunFits;
    if i > 0 {
      RunFollows(r, data, i - 1);
      UptoStep(r, data, i - 1);
      AdvanceFollows(Upto(r, data, i - 1), data[i - 1]);
    }
  }

  /**
    On every input the callbacks made before an error, if any, follow the grammar, and a parser that
    leaves to another protocol does so right behind `message_complete`.
  */
  lemma CallbacksFollowGrammar(data: seq<byte>, i: nat)
    requires i <= |data|
    ensures var r := Upto(Live(INITIAL, [], 0), data, i);
      !r.Failed? ==> PhaseOf(r.trace) != Broken && Fits(r.q, PhaseOf(r.trace)) && (r.Left? ==> PhaseOf(r.trace) == Between)
  {
    hide Advance, Emit, MethodString, Good;
    InitialIsGood();
    var start := Live(INITIAL, [], 0);
    RunFollows(start, data, i);
    var r := Upto(start, data, i);
    if r.Left? {
      RunQuiet(start, data, i);
    }
  }

  // ---- What the grammar says -------------------------------------------------------------------

  function Beginnings(trace: seq<Event>): nat {
    if trace == [] then 0
    else Beginnings(trace[..|trace| - 1]) + if trace[|trace| - 1].MessageBegin? then 1 else 0
  }

  /** `message_complete` answers `message_begin`, once each. */
  lemma {:induction false} CompletionsMatchBeginnings(trace: seq<Event>)
    requires PhaseOf(trace) != Broken
    ensures Beginnings(trace) == Completions(trace) + if PhaseOf(trace) == Between then 0 else 1
  {
    if trace != [] {
      CompletionsMatchBeginnings(trace[..|trace| - 1]);
    }
  }

  /** The body bytes of an event that comes in phase `p`, if that is in a chunk or is not, as `chunked` says. */
  function Carried(p: Phase, e: Event, chunked: bool): nat {
    if e.Data? && e.kind == Body && (p.InChunk? <==> chunked) then |e.bytes| else 0
  }

  /** The body bytes delivered in chunks, or those delivered otherwise. */
  function BytesBy(trace: seq<Event>, chunked: bool): nat {
    if trace == [] then 0
    else
      var before := trace[..|trace| - 1];
      BytesBy(before, chunked) + Carried(PhaseOf(before), trace[|trace| - 1], chunked)
  }

  /** The body bytes that an event announces: by the header of a chunk, or by a Content-Length that counts. */
  function Promise(e: Event, chunked: bool): nat {
    match e
    case ChunkHeader(length) => if chunked then length else 0
    case HeadersComplete(m, _, _, _, s) => if !chunked && s.OfLength? && m != CONNECT then s.size else 0
    case _ => 0
  }

  function Promised(trace: seq<Event>, chunked: bool): nat {
    if trace == [] then 0 else Promised(trace[..|trace| - 1], chunked) + Promise(trace[|trace| - 1], chunked)
  }

  /** What is still to come of the current chunk, or of the current body of Content-Length bytes. */
  function Owed(p: Phase, chunked: bool): nat {
    match p
    case InChunk(left) => if chunked then left else 0
    case Identity(left) => if chunked then 0 else left
    case Open(s, tunnel) => if !chunked && s.OfLength? && !tunnel then s.size else 0
    case _ => 0
  }

  lemma OwedNext(p: Phase, e: Event, chunked: bool)
    requires After(p, e) != Broken
    ensures Owed(After(p, e), chunked) + Carried(p, e, chunked) == Owed(p, chunked) + Promise(e, chunked)
  {}

  lemma {:induction false} TraceConserves(trace: seq<Event>, chunked: bool)
    requires PhaseOf(trace) != Broken
    ensures BytesBy(trace, chunked) + Owed(PhaseOf(trace), chunked) == Promised(trace, chunked)
  {
    hide After, Owed, Carried, Promise;
    if trace != [] {
      var before, e := trace[..|trace| - 1], trace[|trace| - 1];
      BrokenStays(e);
      TraceConserves(before, chunked);
      OwedNext(PhaseOf(before), e, chunked);
    } else {
      NothingOwed(chunked);
    }
  }

  lemma NothingOwed(chunked: bool)
    ensures Owed(Between, chunked) == 0
  {}

  lemma BrokenStays(e: Event)
    ensures After(Broken, e) == Broken
  {}

  lemma {:induction false} BodySplits(trace: seq<Event>)
    ensures |BodyOf(trace)| == BytesBy(trace, true) + BytesBy(trace, false)
  {
    hide PhaseOf;
    if trace != [] {
      BodySplits(trace[..|trace| - 1]);
    }
  }

  /**
    On every input and at every moment before an error, the chunk bytes delivered are those that chunk
    headers announced less what is left of the current chunk, the other body bytes those that
    Content-Length headers announced less what is left of the current body, and there are no others.
  */
  lemma BodiesConserved(data: seq<byte>, i: nat)
    requires i <= |data|
    ensures var r := Upto(Live(INITIAL, [], 0), data, i);
      !r.Failed? ==>
        && BytesBy(r.trace, true) + Owed(PhaseOf(r.trace), true) == Promised(r.trace, true)
        && BytesBy(r.trace, false) + Owed(PhaseOf(r.trace), false) == Promised(r.trace, false)
        && |BodyOf(r.trace)| == BytesBy(r.trace, true) + BytesBy(r.trace, false)
  {
    hide Upto, PhaseOf, Owed, Promised, BytesBy, BodyOf, Fits;
    CallbacksFollowGrammar(data, i);
    var r := Upto(Live(INITIAL, [], 0), data, i);
    if !r.Failed? {
      TraceConserves(r.trace, true);
      TraceConserves(r.trace, false);
      BodySplits(r.trace);
    }
  }
}
