/**
  Runs of the byte-wise parser: the invariant that makes every assertion of the original hold, and
  the run over a stream, which does not depend on how the stream is cut.
*/
module HttpRun {
  import opened Bytes
  import opened HttpTypes
  import opened HttpStep

  // ---- The invariant ---------------------------------------------------------------------------

  /** The length of the word a header sub-state is in the middle of, or 128 for none. */
  function WordLength(h: HeaderState): nat {
    match h
    case MatchingConnection => 10
    case MatchingProxyConnection => 16
    case MatchingContentLength => 14
    case MatchingTransferEncoding => 17
    case MatchingUpgrade => 7
    case MatchingChunked => 7
    case MatchingKeepAlive => 10
    case MatchingClose => 5
    case MatchingConnectionUpgrade => 7
    case C => 1
    case CO => 2
    case CON => 3
    case TokenStart => 1
    case _ => 128
  }

  /** The sub-states a header name can be in. */
  predicate NameState(h: HeaderState) {
    h.General? || h.C? || h.CO? || h.CON? || h.MatchingConnection? || h.MatchingProxyConnection?
    || h.MatchingContentLength? || h.MatchingTransferEncoding? || h.MatchingUpgrade? || WholeName(h)
  }

  /** The sub-states of a name recognised so far as one of the four that matter. */
  predicate WholeName(h: HeaderState) {
    h.Connection? || h.ContentLength? || h.TransferEncoding? || h.Upgrade?
  }

  /** The sub-states a header value can be in; the original asserts that no other occurs. */
  predicate ValueState(h: HeaderState) {
    h.General? || h.ContentLengthNum? || h.ContentLengthWs? || h.MatchingChunked? || h.TokenStart?
    || h.MatchingKeepAlive? || h.MatchingClose? || h.MatchingConnectionUpgrade? || h.Token?
    || h.Chunked? || h.KeepAlive? || h.Close? || h.ConnectionUpgrade?
  }

  /** The position in the word being matched; it never leaves the seven bits of the field. */
  predicate IndexFits(q: Parser) {
    q.index < WordLength(q.headerState)
  }

  /** What holds at the switch, after the byte was counted. */
  predicate AtSwitch(q: Parser) {
    && q.nread <= MAX_HEADER_SIZE
    && q.index < 128
    && q.contentLength <= ULLONG_MAX
    && (q.flags.contentLength ==> q.contentLength < ULLONG_MAX)
    && match q.state
       case ReqMethod => 1 <= q.index <= |MethodString(q.meth)|
       case HeaderField => NameState(q.headerState) && IndexFits(q)
       case HeaderValueDiscardWs | HeaderValueDiscardWsAlmostDone | HeaderValueDiscardLws => NameState(q.headerState)
       case HeaderValue => ValueState(q.headerState) && IndexFits(q)
       case HeaderAlmostDone | HeaderValueLws => ValueState(q.headerState)
       case HeaderValueStart => ValueState(q.headerState) && q.headerState != ContentLengthNum
       case ChunkSizeStart => q.flags.chunked
       case ChunkSize | ChunkParameters | ChunkSizeAlmostDone => q.flags.chunked && q.contentLength < ULLONG_MAX
       case ChunkData => q.flags.chunked && 0 < q.contentLength < ULLONG_MAX
       case ChunkDataAlmostDone => q.flags.chunked && q.contentLength == 0
       case ChunkDataDone => q.flags.chunked
       case BodyIdentity => 0 < q.contentLength < ULLONG_MAX
       case _ => true
  }

  /** What holds between two bytes. */
  predicate Good(q: Parser) {
    AtSwitch(q) && (q.state == ChunkSizeStart ==> q.nread == 0)
  }

  /** The kind of data a state collects. */
  function Collects(s: State): Option<Kind> {
    if s.HeaderField? then Some(Field)
    else if s.HeaderValue? then Some(Value)
    else if UrlState(s) then Some(Url)
    else None
  }

  /** A state with no data pending: neither collecting nor right behind a chunk. */
  predicate NoData(s: State) {
    Collects(s) == None && s != ChunkDataAlmostDone
  }

  /** The arms outside bodies set, keep and flush marks as the states before and after them say. */
  predicate MarksAsStates(q: Parser, a: Act) {
    if a.Bad? then true
    else if a.Leave? then NoData(q.state)
    else
      match a.mark
      case NoMark => NoData(q.state) && NoData(a.q.state)
      case Keep(k) => Collects(q.state) == Some(k) && Collects(a.q.state) == Some(k) && a.notes == [] && a.Next?
      case Mark(k) => NoData(q.state) && Collects(a.q.state) == Some(k) && a.notes == [] && a.Next?
      case Flush(k) => Collects(q.state) == Some(k) && NoData(a.q.state)
      case MarkFlush(_) => NoData(q.state) && NoData(a.q.state)
      case FlushWith(_) => false
      case FlushIfSet(k) => k == Body && q.state == ChunkDataAlmostDone && NoData(a.q.state) && a.Next?
  }

  /** Not between messages with `upgrade` set: how a caller tells that the parser has not left. */
  predicate Quiet(q: Parser) {
    q.state == StartReq || q.state == Dead ==> !q.upgrade
  }

  /** The arm errs, or it leaves a good parser behind, treats the marks as it should and leaves iff it says so. */
  predicate GoodAct(q: Parser, a: Act) {
    !a.Bad? ==>
      && Good(a.q)
      && (!BodyState(q.state) ==> MarksAsStates(q, a))
      && (Quiet(q) ==> (Quiet(a.q) <==> !a.Leave?))
  }

  lemma MethodWords()
    ensures forall m :: 3 <= |MethodString(m)| <= 11
  {}

  lemma MethodArmKeeps(q: Parser, ch: byte)
    requires AtSwitch(q) && q.state == ReqMethod
    ensures GoodAct(q, MethodArm(q, ch))
  {
    MethodWords();
    var matcher := MethodString(q.meth);
    if !(ch == SP && q.index == |matcher|) && !At(matcher, q.index, ch) && SwitchMethod(q.meth, q.index, ch).Some? {
      SwitchFits(q.meth, q.index, ch);
    }
  }

  /** The tracked entries that begin a longer name, at which the nested switch has most of its edges. */
  predicate Branching(m: Method) {
    m == MKCOL || m == POST || m == CONNECT || m == SUBSCRIBE
  }

  /** An edge of the nested switch explains the new byte. */
  lemma SwitchSpells(m: Method, index: nat, ch: byte)
    requires SwitchMethod(m, index, ch).Some?
    ensures index <= 4 && At(MethodString(SwitchMethod(m, index, ch).value), index, ch)
  {
    hide MethodString, SwitchMethod, At;
    if Branching(m) {
      BranchSpells(m, index, ch);
    } else {
      EdgeSpells(m, index, ch);
    }
  }

  lemma BranchSpells(m: Method, index: nat, ch: byte)
    requires SwitchMethod(m, index, ch).Some? && Branching(m)
    ensures index <= 4 && At(MethodString(SwitchMethod(m, index, ch).value), index, ch)
  {}

  lemma EdgeSpells(m: Method, index: nat, ch: byte)
    requires SwitchMethod(m, index, ch).Some? && !Branching(m)
    ensures index <= 4 && At(MethodString(SwitchMethod(m, index, ch).value), index, ch)
  {}

  lemma SwitchFits(m: Method, index: nat, ch: byte)
    requires SwitchMethod(m, index, ch).Some?
    ensures index + 1 <= |MethodString(SwitchMethod(m, index, ch).value)|
  {
    hide MethodString, SwitchMethod;
    SwitchSpells(m, index, ch);
  }

  lemma WordKeeps(q: Parser, word: string, c: byte, whole: HeaderState, otherwise: HeaderState)
    requires q.index < |word| <= 17 && WordLength(q.headerState) == |word|
    requires WordLength(whole) == 128 && WordLength(otherwise) == 128
    ensures var q1 := MatchWord(q, word, c, whole, otherwise);
      && q1 == q.(index := q.index + 1, headerState := q1.headerState)
      && (q1.headerState == whole || q1.headerState == otherwise || q1.headerState == q.headerState)
      && IndexFits(q1) && q1.index <= 17
  {}

  lemma NameKeeps(q: Parser, c: byte, ch: byte)
    requires AtSwitch(q) && q.state == HeaderField
    ensures Good(MatchName(q, c, ch)) && MatchName(q, c, ch).state == HeaderField && MatchName(q, c, ch).upgrade == q.upgrade
  {
    hide At, MethodString;
    match q.headerState {
      case MatchingConnection => WordKeeps(q, CONNECTION, c, Connection, General);
      case MatchingProxyConnection => WordKeeps(q, PROXY_CONNECTION, c, Connection, General);
      case MatchingContentLength => WordKeeps(q, CONTENT_LENGTH, c, ContentLength, General);
      case MatchingTransferEncoding => WordKeeps(q, TRANSFER_ENCODING, c, TransferEncoding, General);
      case MatchingUpgrade => WordKeeps(q, UPGRADE, c, Upgrade, General);
      case _ =>
    }
  }

  /** The 64-bit step never wraps, and the sentinel is out of reach. */
  lemma LengthDigitExact(q: Parser, ch: byte)
    requires LengthDigit(q, ch).Some? && ch != SP
    ensures var q1 := LengthDigit(q, ch).value;
      q1.contentLength == q.contentLength * 10 + (ch - 48) && q1.contentLength < ULLONG_MAX && IsNum(ch)
  {}

  lemma TokenKeeps(q: Parser, ch: byte, c: byte)
    requires AtSwitch(q) && q.state == HeaderValue
    ensures var q1 := MatchToken(q, ch, c);
      && q1 == q.(index := q1.index, headerState := q1.headerState, flags := q1.flags)
      && ValueState(q1.headerState) && IndexFits(q1) && q1.index < 128
      && q1.flags.contentLength == q.flags.contentLength
  {
    hide At, MethodString, MatchWord, AfterToken, WordLength;
    NoWord();
    match q.headerState {
      case MatchingChunked => WordKeeps(q, CHUNKED, c, Chunked, General);
      case MatchingKeepAlive => WordKeeps(q, KEEP_ALIVE, c, KeepAlive, Token);
      case MatchingClose => WordKeeps(q, CLOSE, c, Close, Token);
      case MatchingConnectionUpgrade => WordKeeps(q, UPGRADE, c, ConnectionUpgrade, Token);
      case KeepAlive | Close | ConnectionUpgrade => AfterTokenKeeps(q, ch);
      case _ => OtherTokenKeeps(q, ch, c);
    }
  }

  lemma NoWord()
    ensures WordLength(General) == WordLength(Token) == WordLength(Chunked) == WordLength(KeepAlive) == WordLength(Close) == 128
    ensures WordLength(ConnectionUpgrade) == 128 && WordLength(TokenStart) == 1
    ensures WordLength(MatchingChunked) == |CHUNKED| && WordLength(MatchingKeepAlive) == |KEEP_ALIVE|
    ensures WordLength(MatchingClose) == |CLOSE| && WordLength(MatchingConnectionUpgrade) == |UPGRADE|
  {}

  predicate InWord(h: HeaderState) {
    h == MatchingChunked || h == MatchingKeepAlive || h == MatchingClose || h == MatchingConnectionUpgrade
  }

  lemma OtherTokenKeeps(q: Parser, ch: byte, c: byte)
    requires q.index < 128 && ValueState(q.headerState) && IndexFits(q) && !InWord(q.headerState)
    requires q.headerState != KeepAlive && q.headerState != Close && q.headerState != ConnectionUpgrade
    ensures var q1 := MatchToken(q, ch, c);
      && q1 == q.(index := q1.index, headerState := q1.headerState) && ValueState(q1.headerState)
      && q1.index < WordLength(q1.headerState) && q1.index < 128
  {
    hide At, MatchWord, AfterToken, TokenOf;
  }

  lemma AfterTokenKeeps(q: Parser, ch: byte)
    requires q.index < 128 && (q.headerState == KeepAlive || q.headerState == Close || q.headerState == ConnectionUpgrade)
    ensures var q1 := AfterToken(q, ch);
      && q1 == q.(index := q1.index, headerState := q1.headerState, flags := q1.flags)
      && (q1.headerState == TokenStart || q1.headerState == Token || q1.headerState == q.headerState)
      && q1.index < (if q1.headerState == TokenStart then 1 else 128)
      && q1.flags.contentLength == q.flags.contentLength && q1.flags.trailing == q.flags.trailing
  {
    hide ConnectionFlags;
    ConnectionFlagsKeep(q);
  }

  lemma ValueKeeps(q: Parser, ch: byte)
    requires AtSwitch(q) && q.state == HeaderValue && MatchValue(q, ch).Some?
    ensures Good(MatchValue(q, ch).value)
    ensures MatchValue(q, ch).value.state == HeaderValue && MatchValue(q, ch).value.upgrade == q.upgrade
  {
    hide MethodString;
    if q.headerState == ContentLengthNum {
      if ch != SP {
        LengthDigitExact(q, ch);
      }
    } else if q.headerState != ContentLengthWs {
      TokenKeeps(q, ch, Lower(ch));
    }
  }

  lemma FieldStartKeeps(q: Parser, ch: byte)
    requires AtSwitch(q) && q.state == HeaderFieldStart
    ensures GoodAct(q, FieldStartArm(q, ch))
  {
    hide MethodString, TokenOf;
  }

  lemma FieldArmKeeps(q: Parser, ch: byte)
    requires AtSwitch(q) && q.state == HeaderField
    ensures GoodAct(q, FieldArm(q, ch))
  {
    hide MethodString, TokenOf, MatchName;
    if TokenOf(ch) != 0 {
      NameKeeps(q, TokenOf(ch), ch);
    }
  }

  lemma ValueArmKeeps(q: Parser, ch: byte)
    requires AtSwitch(q) && q.state == HeaderValue
    ensures GoodAct(q, ValueArm(q, ch))
  {
    hide MethodString, MatchValue, IsHeaderChar;
    if ch != CR && ch != LF && MatchValue(q, ch).Some? {
      ValueKeeps(q, ch);
    }
  }

  lemma LengthStartKeeps(q: Parser, ch: byte)
    requires AtSwitch(q) && (q.state == HeaderValueStart || q.state == HeaderValueDiscardWs)
    requires q.headerState == ContentLength || q.headerState == ContentLengthWs
    ensures GoodAct(q, ValueStartArm(q, ch))
  {
    hide MethodString;
  }

  lemma ValueStartKeeps(q: Parser, ch: byte)
    requires AtSwitch(q) && (q.state == HeaderValueStart || q.state == HeaderValueDiscardWs)
    ensures GoodAct(q, ValueStartArm(q, ch))
  {
    hide MethodString;
    if q.headerState == ContentLength || q.headerState == ContentLengthWs {
      hide GoodAct, ValueStartArm;
      LengthStartKeeps(q, ch);
    }
  }

  lemma EndFlagsKeep(q: Parser)
    ensures EndFlags(q).contentLength == q.flags.contentLength && EndFlags(q).trailing == q.flags.trailing
  {
    hide ConnectionFlags;
    ConnectionFlagsKeep(q);
  }

  lemma ConnectionFlagsKeep(q: Parser)
    ensures ConnectionFlags(q).contentLength == q.flags.contentLength && ConnectionFlags(q).trailing == q.flags.trailing
  {}

  lemma ValueEdgeKeeps(q: Parser, ch: byte)
    requires AtSwitch(q)
    requires q.state == HeaderValueDiscardWs || q.state == HeaderValueDiscardWsAlmostDone
      || q.state == HeaderValueDiscardLws || q.state == HeaderValueLws || q.state == HeaderAlmostDone
    ensures GoodAct(q, ValueEdgeArm(q, ch))
  {
    hide MethodString, ValueStartArm, EndFlags, GoodAct;
    EndFlagsKeep(q);
    if q.state == HeaderValueDiscardWs && ch != SP && ch != HT && ch != CR && ch != LF {
      ValueStartKeeps(q, ch);
    } else {
      EdgeKeeps(q, ch);
    }
  }

  lemma FoldKeeps(q: Parser, ch: byte)
    requires AtSwitch(q) && (q.state == HeaderValueDiscardLws || q.state == HeaderValueLws)
    ensures GoodAct(q, ValueEdgeArm(q, ch))
  {
    hide MethodString, ValueStartArm, EndFlags;
    EndFlagsKeep(q);
  }

  lemma EdgeKeeps(q: Parser, ch: byte)
    requires AtSwitch(q)
    requires (q.state == HeaderValueDiscardWs && (ch == SP || ch == HT || ch == CR || ch == LF))
      || q.state == HeaderValueDiscardWsAlmostDone
      || q.state == HeaderValueDiscardLws || q.state == HeaderValueLws || q.state == HeaderAlmostDone
    ensures GoodAct(q, ValueEdgeArm(q, ch))
  {
    hide MethodString, ValueStartArm, EndFlags;
    if q.state == HeaderValueDiscardLws || q.state == HeaderValueLws {
      hide GoodAct, ValueEdgeArm;
      FoldKeeps(q, ch);
    }
  }

  lemma UnhexRange(ch: byte)
    ensures -1 <= Unhex(ch) <= 15
  {}

  lemma SizeArmKeeps(q: Parser, ch: byte)
    requires AtSwitch(q) && (q.state == ChunkSizeStart || q.state == ChunkSize || q.state == ChunkParameters)
    ensures GoodAct(q, ChunkArm(q, ch))
  {
    hide MethodString, Unhex, GoodAct, ChunkArm, AtSwitch;
    if q.state == ChunkSize {
      SizeDigitKeeps(q, ch);
    } else {
      SizeEdgeKeeps(q, ch);
    }
  }

  lemma SizeDigitKeeps(q: Parser, ch: byte)
    requires AtSwitch(q) && q.state == ChunkSize
    ensures GoodAct(q, ChunkArm(q, ch))
  {
    hide MethodString, Unhex;
    if ch != CR && Unhex(ch) != -1 && ChunkArm(q, ch).Next? {
      UnhexRange(ch);
      ChunkDigitExact(q, ch);
    }
  }

  lemma SizeEdgeKeeps(q: Parser, ch: byte)
    requires AtSwitch(q) && (q.state == ChunkSizeStart || q.state == ChunkParameters)
    ensures GoodAct(q, ChunkArm(q, ch))
  {
    hide MethodString, Unhex;
    UnhexRange(ch);
  }

  lemma ChunkArmKeeps(q: Parser, ch: byte)
    requires AtSwitch(q) && ChunkState(q.state)
    ensures GoodAct(q, ChunkArm(q, ch))
  {
    hide MethodString, Unhex, GoodAct, ChunkArm, AtSwitch;
    if q.state == ChunkSizeStart || q.state == ChunkSize || q.state == ChunkParameters {
      SizeArmKeeps(q, ch);
    } else if q.state == ChunkSizeAlmostDone {
      SizeEndKeeps(q, ch);
    } else {
      ChunkEndKeeps(q, ch);
    }
  }

  lemma SizeEndKeeps(q: Parser, ch: byte)
    requires AtSwitch(q) && q.state == ChunkSizeAlmostDone
    ensures GoodAct(q, ChunkArm(q, ch))
  {
    hide MethodString, Unhex;
  }

  lemma ChunkEndKeeps(q: Parser, ch: byte)
    requires AtSwitch(q) && (q.state == ChunkDataAlmostDone || q.state == ChunkDataDone)
    ensures GoodAct(q, ChunkArm(q, ch))
  {
    hide MethodString, Unhex;
  }

  /** The 64-bit step never wraps, and the sentinel is out of reach. */
  lemma ChunkDigitExact(q: Parser, ch: byte)
    requires q.state == ChunkSize && ch != CR && Unhex(ch) != -1 && ChunkArm(q, ch).Next?
    ensures var q1 := ChunkArm(q, ch).q;
      q1 == q.(contentLength := q.contentLength * 16 + Unhex(ch)) && q1.contentLength < ULLONG_MAX
  {}

  lemma BodyArmKeeps(q: Parser)
    requires AtSwitch(q) && BodyState(q.state)
    ensures !BodyArm(q).Bad? && !BodyArm(q).Leave? && GoodAct(q, BodyArm(q))
  {}

  lemma StartArmKeeps(q: Parser, ch: byte)
    requires AtSwitch(q) && q.state == StartReq
    ensures GoodAct(q, StartReqArm(q, ch))
  {
    MethodWords();
  }

  lemma AlmostDoneKeeps(q: Parser, ch: byte)
    requires AtSwitch(q) && q.state == HeadersAlmostDone
    ensures GoodAct(q, HeadersAlmostDoneArm(q, ch))
  {
    hide MethodString;
  }

  lemma HeadersDoneKeeps(q: Parser, ch: byte)
    requires AtSwitch(q) && q.state == HeadersDone
    ensures GoodAct(q, HeadersDoneArm(q, ch))
  {
    hide MethodString, ShouldKeepAlive;
  }

  lemma MessageDoneKeeps(q: Parser)
    requires AtSwitch(q) && q.state == MessageDone
    ensures !MessageDoneArm(q).Bad? && GoodAct(q, MessageDoneArm(q))
  {
    hide MethodString, ShouldKeepAlive;
  }

  /** States that ask nothing of the other fields. */
  predicate Undemanding(s: State) {
    s == StartReq || s == Dead || s == ReqSpacesBeforeUrl || UrlState(s) || VersionState(s)
    || s == HeaderFieldStart || s == HeadersAlmostDone || s == HeadersDone || s == MessageDone
  }

  lemma UndemandingKeeps(q: Parser, q1: Parser)
    requires AtSwitch(q) && Undemanding(q1.state)
    requires q1 == q.(state := q1.state, nread := q1.nread, major := q1.major, minor := q1.minor, upgrade := q1.upgrade)
    requires q1.nread <= q.nread
    ensures Good(q1)
  {}

  lemma UrlStartKeeps(q: Parser, ch: byte)
    requires AtSwitch(q) && q.state == ReqSpacesBeforeUrl
    ensures GoodAct(q, UrlStartArm(q, ch))
  {
    hide MethodString, AtSwitch, Good, ParseUrlChar;
    if UrlStartArm(q, ch).Next? {
      UndemandingKeeps(q, UrlStartArm(q, ch).q);
    }
  }

  lemma UrlArmKeeps(q: Parser, ch: byte)
    requires AtSwitch(q) && UrlState(q.state)
    ensures GoodAct(q, UrlArm(q, ch))
  {
    hide MethodString, AtSwitch, Good, ParseUrlChar;
    if UrlArm(q, ch).Next? {
      UndemandingKeeps(q, UrlArm(q, ch).q);
    }
  }

  lemma VersionArmKeeps(q: Parser, ch: byte)
    requires AtSwitch(q) && VersionState(q.state)
    ensures GoodAct(q, VersionArm(q, ch))
  {
    hide MethodString, AtSwitch, Good;
    if VersionArm(q, ch).Next? {
      UndemandingKeeps(q, VersionArm(q, ch).q);
    }
  }

  lemma DeadArmKeeps(q: Parser, ch: byte)
    requires AtSwitch(q) && q.state == Dead
    ensures GoodAct(q, Arm(q, ch))
  {
    hide MethodString;
  }

  predicate ChunkState(s: State) {
    s.ChunkSizeStart? || s.ChunkSize? || s.ChunkParameters? || s.ChunkSizeAlmostDone? || s.ChunkDataAlmostDone? || s.ChunkDataDone?
  }

  predicate VersionState(s: State) {
    s.ReqHttpStart? || s.ReqHttpH? || s.ReqHttpHT? || s.ReqHttpHTT? || s.ReqHttpHTTP? || s.ReqHttpI? || s.ReqHttpIC?
    || s.ReqHttpMajor? || s.ReqHttpDot? || s.ReqHttpMinor? || s.ReqHttpEnd? || s.ReqLineAlmostDone?
  }

  /** Every arm errs or leaves a good parser behind. */
  lemma ArmKeeps(q: Parser, ch: byte)
    requires AtSwitch(q)
    ensures GoodAct(q, Arm(q, ch))
  {
    hide AtSwitch, Good, MarksAsStates, GoodAct;
    match q.state {
      case ReqMethod => MethodArmKeeps(q, ch);
      case HeaderFieldStart => FieldStartKeeps(q, ch);
      case HeaderField => FieldArmKeeps(q, ch);
      case HeaderValue => ValueArmKeeps(q, ch);
      case HeaderValueStart => ValueStartKeeps(q, ch);
      case HeaderValueDiscardWs | HeaderValueDiscardWsAlmostDone | HeaderValueDiscardLws
         | HeaderValueLws | HeaderAlmostDone => ValueEdgeKeeps(q, ch);
      case ChunkSizeStart | ChunkSize | ChunkParameters | ChunkSizeAlmostDone | ChunkDataAlmostDone
         | ChunkDataDone => ChunkArmKeeps(q, ch);
      case BodyIdentity | ChunkData => BodyArmKeeps(q);
      case Dead => DeadArmKeeps(q, ch);
      case StartReq => StartArmKeeps(q, ch);
      case HeadersAlmostDone => AlmostDoneKeeps(q, ch);
      case HeadersDone => HeadersDoneKeeps(q, ch);
      case MessageDone => MessageDoneKeeps(q);
      case ReqHttpStart | ReqHttpH | ReqHttpHT | ReqHttpHTT | ReqHttpHTTP | ReqHttpI | ReqHttpIC
         | ReqHttpMajor | ReqHttpDot | ReqHttpMinor | ReqHttpEnd | ReqLineAlmostDone => VersionArmKeeps(q, ch);
      case ReqSpacesBeforeUrl => UrlStartKeeps(q, ch);
      case _ => UrlArmKeeps(q, ch);
    }
  }

  lemma {:induction false} ExecKeeps(q: Parser, ch: byte)
    requires AtSwitch(q)
    ensures !Exec(q, ch).Erred? ==> Good(Exec(q, ch).q)
    ensures !Exec(q, ch).Erred? && Quiet(q) ==> (Quiet(Exec(q, ch).q) <==> Exec(q, ch).Went?)
    decreases Rank(q.state)
  {
    hide MarksAsStates, MethodString;
    var a := Arm(q, ch);
    ArmKeeps(q, ch);
    if a.Again? {
      ExecKeeps(a.q, ch);
    }
  }

  /** Counting a byte within the budget leads from a good parser to the switch. */
  lemma CountKeeps(q: Parser)
    requires Good(q) && Counted(q).nread <= MAX_HEADER_SIZE
    ensures AtSwitch(Counted(q))
    ensures q.state == ChunkSizeStart ==> Counted(q).nread == 1
  {}

  /**
    Whatever byte arrives, a good parser stays good: the header budget is kept, indices and lengths
    stay in range, and none of the original's assertions can fail.
  */
  lemma StepKeeps(q: Parser, ch: byte)
    requires Good(q)
    ensures !StepByte(q, ch).Erred? ==> Good(StepByte(q, ch).q)
  {
    if Counted(q).nread <= MAX_HEADER_SIZE {
      CountKeeps(q);
      ExecKeeps(Counted(q), ch);
    }
  }

  /** As long as the parser goes on it can be told from one that has left, by `upgrade` and the state. */
  lemma StepQuiet(q: Parser, ch: byte)
    requires Good(q) && Quiet(q) && !StepByte(q, ch).Erred?
    ensures Quiet(StepByte(q, ch).q) <==> StepByte(q, ch).Went?
  {
    hide Exec, MethodString;
    if Counted(q).nread <= MAX_HEADER_SIZE {
      CountKeeps(q);
      ExecKeeps(Counted(q), ch);
    }
  }

  lemma GoodAtSwitch(q: Parser)
    requires Good(q)
    ensures AtSwitch(q)
  {}

  lemma BodyLeft(q: Parser)
    requires Good(q) && BodyState(q.state)
    ensures 0 < q.contentLength < ULLONG_MAX
  {}

  lemma LengthsAtSwitch(q: Parser)
    requires AtSwitch(q)
    ensures BodyState(q.state) ==> q.contentLength > 0
  {}

  lemma InitialIsGood()
    ensures Good(INITIAL)
  {}

  type GoodParser = q: Parser | Good(q) witness INITIAL

  // ---- Runs over a stream ----------------------------------------------------------------------

  /** How far a run got: still parsing, left to another protocol, or in error; `n` counts bytes consumed. */
  datatype Run = Live(q: GoodParser, trace: seq<Event>, n: nat) | Left(q: GoodParser, trace: seq<Event>, n: nat) | Failed

  function Resumed(s: Step, trace: seq<Event>, n: nat): Run
    requires !s.Erred? ==> Good(s.q)
  {
    match s
    case Went(q, events) => Live(q, EmitAll(trace, events), n)
    case Quit(q, events) => Left(q, EmitAll(trace, events), n)
    case Erred(_) => Failed
  }

  /** The run after the switch is executed for a counted byte. */
  function AfterSwitch(q: Parser, ch: byte, trace: seq<Event>, n: nat): Run
    requires AtSwitch(q)
  {
    ExecKeeps(q, ch);
    Resumed(Exec(q, ch), trace, n)
  }

  lemma PrependResumes(events: seq<Event>, s: Step, trace: seq<Event>, n: nat)
    requires !s.Erred? ==> Good(s.q)
    ensures Resumed(Prepend(events, s), trace, n) == Resumed(s, EmitAll(trace, events), n)
  {
    hide Good;
    if !s.Erred? {
      EmitAllAppend(trace, events, s.events);
    }
  }

  function Advance(r: Run, ch: byte): Run {
    if r.Live? then
      StepKeeps(r.q, ch);
      Resumed(StepByte(r.q, ch), r.trace, r.n + 1)
    else r
  }

  /** The run over the first `i` bytes of `data`, one byte at a time. */
  function Upto(r: Run, data: seq<byte>, i: nat): Run
    requires i <= |data|
  {
    Fold(Advance, r, data, i)
  }

  function Over(r: Run, data: seq<byte>): Run {
    Upto(r, data, |data|)
  }

  lemma UptoStep(r: Run, data: seq<byte>, i: nat)
    requires i < |data|
    ensures Upto(r, data, i + 1) == Advance(Upto(r, data, i), data[i])
  {}

  /** A run that has ended stays as it is. */
  lemma Ended(r: Run, data: seq<byte>, i: nat, j: nat)
    requires i <= j <= |data| && !Upto(r, data, i).Live?
    ensures Upto(r, data, j) == Upto(r, data, i)
  {
    FoldStays(Advance, r, data, i, j);
  }

  /** A run over two pieces is the run over the second from where the first one ended. */
  lemma OverAppend(r: Run, a: seq<byte>, b: seq<byte>)
    ensures Over(r, a + b) == Over(Over(r, a), b)
  {
    hide StepByte, Resumed;
    FoldAppend(Advance, r, a, b, |b|);
  }

  /** A run leaves exactly when it ends between messages with `upgrade` set. */
  lemma {:induction false} RunQuiet(r: Run, data: seq<byte>, i: nat)
    requires r.Live? && Quiet(r.q) && i <= |data|
    ensures var r1 := Upto(r, data, i);
      (r1.Live? ==> Quiet(r1.q)) && (r1.Left? ==> !Quiet(r1.q))
  {
    hide StepByte, Quiet, MethodString;
    if i > 0 {
      RunQuiet(r, data, i - 1);
      UptoStep(r, data, i - 1);
      var before := Upto(r, data, i - 1);
      if before.Live? && !StepByte(before.q, data[i - 1]).Erred? {
        StepQuiet(before.q, data[i - 1]);
      }
    }
  }
}
