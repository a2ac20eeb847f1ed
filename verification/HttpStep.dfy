/**
  One byte of the request parser: the arms of the switch in `http_parser_execute`, the
  re-execution between them, and what a run over many bytes comes to.
*/
module HttpStep {
  import opened Bytes
  import opened HttpTypes

  /** What an arm does to the data marks: leave them, keep one across this byte, set or flush one. */
  datatype MarkAct =
    | NoMark
    | Keep(kind: Kind)        // the mark, if any, stays; this byte belongs to it
    | Mark(kind: Kind)        // MARK: set it here unless it is set
    | Flush(kind: Kind)       // CALLBACK_DATA up to this byte
    | MarkFlush(kind: Kind)   // MARK, then CALLBACK_DATA: an empty slice
    | FlushWith(kind: Kind)   // MARK, then CALLBACK_DATA including this byte
    | FlushIfSet(kind: Kind)  // CALLBACK_DATA where no mark need be set

  /** How an arm ends: on to the next byte, back to the switch with the same one, out, or in error. */
  datatype Act =
    | Next(q: Parser, mark: MarkAct, notes: seq<Event>)
    | Again(q: Parser, mark: MarkAct, notes: seq<Event>)
    | Leave(q: Parser, notes: seq<Event>)
    | Bad(errno: Errno)

  // ---- Pure helpers of the original ------------------------------------------------------------

  /** `parse_url_char`, lines 491 to 637. */
  function ParseUrlChar(s: State, ch: byte): (t: State)
    ensures t == Dead || UrlState(t)
  {
    if ch == SP || ch == CR || ch == LF || ch == HT || ch == 12 then Dead else
    match s
    case ReqSpacesBeforeUrl => if ch == 47 || ch == 42 then ReqPath else if IsAlpha(ch) then ReqSchema else Dead
    case ReqSchema => if IsAlpha(ch) then ReqSchema else if ch == COLON then ReqSchemaSlash else Dead
    case ReqSchemaSlash => if ch == 47 then ReqSchemaSlashSlash else Dead
    case ReqSchemaSlashSlash => if ch == 47 then ReqServerStart else Dead
    case ReqServerWithAt => if ch == 64 then Dead else ServerChar(ch)
    case ReqServerStart => ServerChar(ch)
    case ReqServer => ServerChar(ch)
    case ReqPath =>
      if IsUrlChar(ch) then ReqPath
      else if ch == 63 then ReqQueryStringStart else if ch == 35 then ReqFragmentStart else Dead
    case ReqQueryStringStart => QueryChar(ch)
    case ReqQueryString => QueryChar(ch)
    case ReqFragmentStart =>
      if IsUrlChar(ch) || ch == 63 then ReqFragment else if ch == 35 then ReqFragmentStart else Dead
    case ReqFragment => if IsUrlChar(ch) || ch == 63 || ch == 35 then ReqFragment else Dead
    case _ => Dead
  }

  function ServerChar(ch: byte): State {
    if ch == 47 then ReqPath
    else if ch == 63 then ReqQueryStringStart
    else if ch == 64 then ReqServerWithAt
    else if IsUserinfoChar(ch) || ch == 91 || ch == 93 then ReqServer
    else Dead
  }

  function QueryChar(ch: byte): State {
    if IsUrlChar(ch) || ch == 63 then ReqQueryString else if ch == 35 then ReqFragmentStart else Dead
  }

  /** `http_should_keep_alive`; a request never needs EOF to end (`http_message_needs_eof`). */
  predicate ShouldKeepAlive(q: Parser) {
    if q.major > 0 && q.minor > 0 then !q.flags.close else q.flags.keepAlive
  }

  /** `NEW_MESSAGE`. */
  function NewMessage(q: Parser): State {
    if ShouldKeepAlive(q) then StartReq else Dead
  }

  // ---- Recognisers -----------------------------------------------------------------------------

  function FirstMethod(ch: byte): Option<Method> {
    if ch == 65 then Some(ACL) else if ch == 66 then Some(BIND) else if ch == 67 then Some(CONNECT)
    else if ch == 68 then Some(DELETE) else if ch == 71 then Some(GET) else if ch == 72 then Some(HEAD)
    else if ch == 76 then Some(LOCK) else if ch == 77 then Some(MKCOL) else if ch == 78 then Some(NOTIFY)
    else if ch == 79 then Some(OPTIONS) else if ch == 80 then Some(POST) else if ch == 82 then Some(REPORT)
    else if ch == 83 then Some(SUBSCRIBE) else if ch == 84 then Some(TRACE) else if ch == 85 then Some(UNLOCK)
    else None
  }

  /** The edges of the nested switch, lines 984 to 1002. */
  function SwitchMethod(m: Method, index: nat, ch: byte): Option<Method> {
    match m
    case POST =>
      if index == 1 && ch == 85 then Some(PUT) else if index == 1 && ch == 65 then Some(PATCH)
      else if index == 1 && ch == 82 then Some(PROPFIND) else None
    case PUT => if index == 2 && ch == 82 then Some(PURGE) else None
    case CONNECT =>
      if index == 1 && ch == 72 then Some(CHECKOUT) else if index == 2 && ch == 80 then Some(COPY) else None
    case MKCOL =>
      if index == 1 && ch == 79 then Some(MOVE) else if index == 1 && ch == 69 then Some(MERGE)
      else if index == 1 && ch == 45 then Some(MSEARCH) else if index == 2 && ch == 65 then Some(MKACTIVITY)
      else if index == 3 && ch == 65 then Some(MKCALENDAR) else None
    case SUBSCRIBE =>
      if index == 1 && ch == 69 then Some(SEARCH) else if index == 1 && ch == 79 then Some(SOURCE) else None
    case REPORT => if index == 2 && ch == 66 then Some(REBIND) else None
    case PROPFIND => if index == 4 && ch == 80 then Some(PROPPATCH) else None
    case LOCK => if index == 1 && ch == 73 then Some(LINK) else None
    case UNLOCK =>
      if index == 2 && ch == 83 then Some(UNSUBSCRIBE) else if index == 2 && ch == 66 then Some(UNBIND)
      else if index == 3 && ch == 73 then Some(UNLINK) else None
    case _ => None
  }

  /** One step of matching `word` behind position `q.index`. */
  function MatchWord(q: Parser, word: string, c: byte, whole: HeaderState, otherwise: HeaderState): Parser {
    var i := q.index + 1;
    q.(index := i,
       headerState := if !At(word, i, c) then otherwise else if i == |word| - 1 then whole else q.headerState)
  }

  /** One byte `ch` of a header name, `c` being its token value: lines 1259 to 1364. */
  function MatchName(q: Parser, c: byte, ch: byte): Parser {
    match q.headerState
    case General => q
    case C => q.(index := q.index + 1, headerState := if c == 111 then CO else General)
    case CO => q.(index := q.index + 1, headerState := if c == 110 then CON else General)
    case CON =>
      q.(index := q.index + 1,
         headerState := if c == 110 then MatchingConnection else if c == 116 then MatchingContentLength else General)
    case MatchingConnection => MatchWord(q, CONNECTION, c, Connection, General)
    case MatchingProxyConnection => MatchWord(q, PROXY_CONNECTION, c, Connection, General)
    case MatchingContentLength => MatchWord(q, CONTENT_LENGTH, c, ContentLength, General)
    case MatchingTransferEncoding => MatchWord(q, TRANSFER_ENCODING, c, TransferEncoding, General)
    case MatchingUpgrade => MatchWord(q, UPGRADE, c, Upgrade, General)
    case _ => if ch != SP then q.(headerState := General) else q
  }

  /** One byte of a header value, neither CR nor LF: lines 1496 to 1660. */
  function MatchValue(q: Parser, ch: byte): Option<Parser> {
    match q.headerState
    case ContentLength => if ch == SP then Some(q) else LengthDigit(q, ch)
    case ContentLengthNum => LengthDigit(q, ch)
    case ContentLengthWs => if ch == SP then Some(q) else None
    case _ => Some(MatchToken(q, ch, Lower(ch)))
  }

  /** The values that are matched against words; these never fail. */
  function MatchToken(q: Parser, ch: byte, c: byte): Parser {
    match q.headerState
    case MatchingChunked => MatchWord(q, CHUNKED, c, Chunked, General)
    case TokenStart =>
      q.(headerState :=
        if c == 107 then MatchingKeepAlive else if c == 99 then MatchingClose
        else if c == 117 then MatchingConnectionUpgrade else if c != SP && TokenOf(c) != 0 then Token
        else if c == SP || c == HT then TokenStart else General)
    case MatchingKeepAlive => MatchWord(q, KEEP_ALIVE, c, KeepAlive, Token)
    case MatchingClose => MatchWord(q, CLOSE, c, Close, Token)
    case MatchingConnectionUpgrade => MatchWord(q, UPGRADE, c, ConnectionUpgrade, Token)
    case Token => if ch == 44 then q.(headerState := TokenStart, index := 0) else q
    case Chunked => if ch != SP then q.(headerState := General) else q
    case KeepAlive => AfterToken(q, ch)
    case Close => AfterToken(q, ch)
    case ConnectionUpgrade => AfterToken(q, ch)
    case _ => q.(headerState := General)
  }

  /** A byte behind one of the three known `Connection` tokens. */
  function AfterToken(q: Parser, ch: byte): Parser {
    if ch == 44 then q.(flags := ConnectionFlags(q), headerState := TokenStart, index := 0)
    else if ch != SP then q.(headerState := Token)
    else q
  }

  function ConnectionFlags(q: Parser): Flags {
    match q.headerState
    case KeepAlive => q.flags.(keepAlive := true)
    case Close => q.flags.(close := true)
    case ConnectionUpgrade => q.flags.(connectionUpgrade := true)
    case _ => q.flags
  }

  /** The flags that the end of a header line sets. */
  function EndFlags(q: Parser): Flags {
    if q.headerState == Chunked then q.flags.(chunked := true) else ConnectionFlags(q)
  }

  /** A Content-Length digit, or the space that ends the number; arithmetic on `uint64_t`. */
  function LengthDigit(q: Parser, ch: byte): Option<Parser> {
    if ch == SP then Some(q.(headerState := ContentLengthWs))
    else if !IsNum(ch) || (ULLONG_MAX - 10) / 10 < q.contentLength then None
    else Some(q.(headerState := ContentLengthNum,
                 contentLength := (q.contentLength * 10 + (ch - 48)) % 0x1_0000_0000_0000_0000))
  }

  // ---- The arms of the switch ------------------------------------------------------------------

  function StartReqArm(q: Parser, ch: byte): (a: Act)
    ensures a.Bad? ==> a.errno != Ok
    ensures !a.Again?
  {
    if ch == CR || ch == LF then Next(q, NoMark, [])
    else if !IsAlpha(ch) then Bad(InvalidMethod)
    else
      match FirstMethod(ch)
      case None => Bad(InvalidMethod)
      case Some(m) =>
        Next(q.(flags := NO_FLAGS, contentLength := ULLONG_MAX, meth := m, index := 1, state := ReqMethod),
             NoMark, [MessageBegin])
  }

  function MethodArm(q: Parser, ch: byte): (a: Act)
    ensures a.Bad? ==> a.errno != Ok
    ensures !a.Again?
  {
    var matcher := MethodString(q.meth);
    if ch == 0 then Bad(InvalidMethod)
    else if ch == SP && q.index == |matcher| then Next(q.(state := ReqSpacesBeforeUrl, index := q.index + 1), NoMark, [])
    else if At(matcher, q.index, ch) then Next(q.(index := q.index + 1), NoMark, [])
    else if 65 <= ch <= 90 || ch == 45 then
      match SwitchMethod(q.meth, q.index, ch)
      case None => Bad(InvalidMethod)
      case Some(m) => Next(q.(meth := m, index := q.index + 1), NoMark, [])
    else Bad(InvalidMethod)
  }

  function UrlStartArm(q: Parser, ch: byte): (a: Act)
    ensures a.Bad? ==> a.errno != Ok
    ensures !a.Again?
  {
    if ch == SP then Next(q, NoMark, [])
    else
      var s := ParseUrlChar(if q.meth == CONNECT then ReqServerStart else ReqSpacesBeforeUrl, ch);
      if s == Dead then Bad(InvalidUrl) else Next(q.(state := s), Mark(Url), [])
  }

  /** The URL states: the first four of them must not be followed by a space or a line end. */
  function UrlArm(q: Parser, ch: byte): (a: Act)
    ensures a.Bad? ==> a.errno != Ok
    ensures !a.Again?
  {
    var inPrefix := q.state.ReqSchema? || q.state.ReqSchemaSlash? || q.state.ReqSchemaSlashSlash? || q.state.ReqServerStart?;
    if ch == SP && !inPrefix then Next(q.(state := ReqHttpStart), Flush(Url), [])
    else if (ch == CR || ch == LF) && !inPrefix then
      Next(q.(major := 0, minor := 9, state := if ch == CR then ReqLineAlmostDone else HeaderFieldStart), Flush(Url), [])
    else
      var s := ParseUrlChar(q.state, ch);
      if s == Dead then Bad(InvalidUrl) else Next(q.(state := s), Keep(Url), [])
  }

  function Expect(q: Parser, ok: bool, to: State, errno: Errno): (a: Act)
    ensures a.Bad? ==> a.errno == errno
    ensures !a.Again?
  {
    if ok then Next(q.(state := to), NoMark, []) else Bad(errno)
  }

  /** The protocol version, up to the end of the request line. */
  function VersionArm(q: Parser, ch: byte): (a: Act)
    ensures a.Bad? ==> a.errno != Ok
    ensures !a.Again?
  {
    match q.state
    case ReqHttpStart =>
      if ch == SP then Next(q, NoMark, [])
      else if ch == 72 then Next(q.(state := ReqHttpH), NoMark, [])
      else Expect(q, ch == 73 && q.meth == SOURCE, ReqHttpI, InvalidConstant)
    case ReqHttpH => Expect(q, ch == 84, ReqHttpHT, Strict)
    case ReqHttpHT => Expect(q, ch == 84, ReqHttpHTT, Strict)
    case ReqHttpHTT => Expect(q, ch == 80, ReqHttpHTTP, Strict)
    case ReqHttpI => Expect(q, ch == 67, ReqHttpIC, Strict)
    case ReqHttpIC => Expect(q, ch == 69, ReqHttpHTTP, Strict)
    case ReqHttpHTTP => Expect(q, ch == 47, ReqHttpMajor, Strict)
    case ReqHttpMajor => if IsNum(ch) then Next(q.(major := ch - 48, state := ReqHttpDot), NoMark, []) else Bad(InvalidVersion)
    case ReqHttpDot => Expect(q, ch == 46, ReqHttpMinor, InvalidVersion)
    case ReqHttpMinor => if IsNum(ch) then Next(q.(minor := ch - 48, state := ReqHttpEnd), NoMark, []) else Bad(InvalidVersion)
    case ReqHttpEnd =>
      if ch == CR then Next(q.(state := ReqLineAlmostDone), NoMark, [])
      else Expect(q, ch == LF, HeaderFieldStart, InvalidVersion)
    case _ => Expect(q, ch == LF, HeaderFieldStart, LfExpected)
  }

  function FieldStartArm(q: Parser, ch: byte): (a: Act)
    ensures a.Bad? ==> a.errno != Ok
    ensures a.Again? ==> a.q.state == HeadersAlmostDone
  {
    if ch == CR then Next(q.(state := HeadersAlmostDone), NoMark, [])
    else if ch == LF then Again(q.(state := HeadersAlmostDone), NoMark, [])
    else
      var c := TokenOf(ch);
      if c == 0 then Bad(InvalidHeaderToken)
      else Next(q.(index := 0, state := HeaderField, headerState := FirstNameState(c)), Mark(Field), [])
  }

  function FirstNameState(c: byte): HeaderState {
    if c == 99 then C else if c == 112 then MatchingProxyConnection else if c == 116 then MatchingTransferEncoding
    else if c == 117 then MatchingUpgrade else General
  }

  /** One byte of a header name. */
  function FieldArm(q: Parser, ch: byte): (a: Act)
    ensures a.Bad? ==> a.errno != Ok
    ensures !a.Again?
  {
    var c := TokenOf(ch);
    if c != 0 then Next(MatchName(q, c, ch), Keep(Field), [])
    else if ch == COLON then Next(q.(state := HeaderValueDiscardWs), Flush(Field), [])
    else Bad(InvalidHeaderToken)
  }

  /** The first byte of a header value; it is not checked to be a header character. */
  function ValueStartArm(q: Parser, ch: byte): (a: Act)
    ensures a.Bad? ==> a.errno != Ok
    ensures !a.Again?
  {
    var c := Lower(ch);
    var q1 := q.(state := HeaderValue, index := 0);
    match q.headerState
    case Upgrade => Next(q1.(flags := q.flags.(upgrade := true), headerState := General), Mark(Value), [])
    case TransferEncoding => Next(q1.(headerState := if c == 99 then MatchingChunked else General), Mark(Value), [])
    case ContentLength =>
      if !IsNum(ch) then Bad(InvalidContentLength)
      else if q.flags.contentLength then Bad(UnexpectedContentLength)
      else Next(q1.(flags := q.flags.(contentLength := true), contentLength := ch - 48, headerState := ContentLengthNum),
                Mark(Value), [])
    case ContentLengthWs => Next(q1, Mark(Value), [])
    case Connection =>
      Next(q1.(headerState :=
        if c == 107 then MatchingKeepAlive else if c == 99 then MatchingClose
        else if c == 117 then MatchingConnectionUpgrade else Token), Mark(Value), [])
    case TokenStart => Next(q1, Mark(Value), [])
    case _ => Next(q1.(headerState := General), Mark(Value), [])
  }

  /** One byte of a header value. */
  function ValueArm(q: Parser, ch: byte): (a: Act)
    ensures a.Bad? ==> a.errno != Ok
    ensures a.Again? ==> a.q.state == HeaderAlmostDone
  {
    if ch == CR then Next(q.(state := HeaderAlmostDone), Flush(Value), [])
    else if ch == LF then Again(q.(state := HeaderAlmostDone), Flush(Value), [])
    else if !IsHeaderChar(ch) then Bad(InvalidHeaderToken)
    else
      match MatchValue(q, ch)
      case None => Bad(InvalidContentLength)
      case Some(q1) => Next(q1, Keep(Value), [])
  }

  /** The states around a header value. */
  function ValueEdgeArm(q: Parser, ch: byte): (a: Act)
    ensures a.Bad? ==> a.errno != Ok
    ensures a.Again? ==> !q.state.HeaderValueDiscardWs? && !q.state.HeaderValueDiscardWsAlmostDone? && !q.state.HeaderAlmostDone?
    ensures a.Again? ==> a.q.state == HeaderFieldStart || a.q.state == HeaderValueStart
  {
    match q.state
    case HeaderValueDiscardWs =>
      if ch == SP || ch == HT then Next(q, NoMark, [])
      else if ch == CR then Next(q.(state := HeaderValueDiscardWsAlmostDone), NoMark, [])
      else if ch == LF then Next(q.(state := HeaderValueDiscardLws), NoMark, [])
      else ValueStartArm(q, ch)
    case HeaderValueDiscardWsAlmostDone => Expect(q, ch == LF, HeaderValueDiscardLws, Strict)
    case HeaderValueDiscardLws =>
      if ch == SP || ch == HT then Next(q.(state := HeaderValueDiscardWs), NoMark, [])
      else if q.headerState == ContentLength then Bad(InvalidContentLength)
      else Again(q.(flags := EndFlags(q), state := HeaderFieldStart), MarkFlush(Value), [])
    case HeaderAlmostDone => Expect(q, ch == LF, HeaderValueLws, LfExpected)
    case _ =>
      if ch == SP || ch == HT then
        Again(q.(headerState := if q.headerState == ContentLengthNum then ContentLengthWs else q.headerState,
                 state := HeaderValueStart), NoMark, [])
      else Again(q.(flags := EndFlags(q), state := HeaderFieldStart), NoMark, [])
  }

  function HeadersAlmostDoneArm(q: Parser, ch: byte): (a: Act)
    ensures a.Bad? ==> a.errno != Ok
    ensures a.Again? ==> a.q.state == HeadersDone || a.q.state == MessageDone
  {
    if ch != LF then Bad(Strict)
    else if q.flags.trailing then Again(q.(state := MessageDone), NoMark, [ChunkComplete])
    else if q.flags.chunked && q.flags.contentLength then Bad(UnexpectedContentLength)
    else
      var upgrade := (q.flags.upgrade && q.flags.connectionUpgrade) || q.meth == CONNECT;
      Again(q.(state := HeadersDone, upgrade := upgrade), NoMark,
            [HeadersComplete(q.meth, q.major, q.minor, upgrade, SizingOf(q.flags.chunked, q.contentLength))])
  }

  function HeadersDoneArm(q: Parser, ch: byte): (a: Act)
    ensures a.Bad? ==> a.errno != Ok
    ensures !a.Again?
  {
    if ch != LF then Bad(Strict)
    else
      var q1 := q.(nread := 0);
      var hasBody := q.flags.chunked || (q.contentLength > 0 && q.contentLength != ULLONG_MAX);
      if q.upgrade && (q.meth == CONNECT || !hasBody) then Leave(q1.(state := NewMessage(q1)), [MessageComplete])
      else if q.flags.chunked then Next(q1.(state := ChunkSizeStart), NoMark, [])
      else if q.contentLength != 0 && q.contentLength != ULLONG_MAX then Next(q1.(state := BodyIdentity), NoMark, [])
      else Next(q1.(state := NewMessage(q1)), NoMark, [MessageComplete])
  }

  function MessageDoneArm(q: Parser): (a: Act)
    ensures a.Bad? ==> a.errno != Ok
    ensures !a.Again?
  {
    if q.upgrade then Leave(q.(state := NewMessage(q)), [MessageComplete])
    else Next(q.(state := NewMessage(q)), NoMark, [MessageComplete])
  }

  function ChunkArm(q: Parser, ch: byte): (a: Act)
    ensures a.Bad? ==> a.errno != Ok
    ensures !a.Again?
  {
    match q.state
    case ChunkSizeStart =>
      if Unhex(ch) == -1 then Bad(InvalidChunkSize)
      else Next(q.(contentLength := Unhex(ch), state := ChunkSize), NoMark, [])
    case ChunkSize =>
      if ch == CR then Next(q.(state := ChunkSizeAlmostDone), NoMark, [])
      else if Unhex(ch) == -1 then Expect(q, ch == 59 || ch == SP, ChunkParameters, InvalidChunkSize)
      else if (ULLONG_MAX - 16) / 16 < q.contentLength then Bad(InvalidContentLength)
      else Next(q.(contentLength := (q.contentLength * 16 + Unhex(ch)) % 0x1_0000_0000_0000_0000), NoMark, [])
    case ChunkParameters => Next(if ch == CR then q.(state := ChunkSizeAlmostDone) else q, NoMark, [])
    case ChunkSizeAlmostDone =>
      if ch != LF then Bad(Strict)
      else if q.contentLength == 0 then
        Next(q.(nread := 0, flags := q.flags.(trailing := true), state := HeaderFieldStart), NoMark, [ChunkHeader(0)])
      else Next(q.(nread := 0, state := ChunkData), NoMark, [ChunkHeader(q.contentLength)])
    case ChunkDataAlmostDone =>
      if ch != CR then Bad(Strict) else Next(q.(state := ChunkDataDone), FlushIfSet(Body), [])
    case _ => if ch != LF then Bad(Strict) else Next(q.(nread := 0, state := ChunkSizeStart), NoMark, [ChunkComplete])
  }

  /** One byte of a body; lengths are counted down. */
  function BodyArm(q: Parser): (a: Act)
    requires q.contentLength > 0
    ensures a.Bad? ==> a.errno != Ok
    ensures a.Again? ==> q.state.BodyIdentity? && a.q.state == MessageDone
  {
    var q1 := q.(contentLength := q.contentLength - 1);
    if q.state.BodyIdentity? then
      if q1.contentLength == 0 then Again(q1.(state := MessageDone), FlushWith(Body), []) else Next(q1, Mark(Body), [])
    else Next(if q1.contentLength == 0 then q1.(state := ChunkDataAlmostDone) else q1, Mark(Body), [])
  }

  predicate BodyState(s: State) {
    s.BodyIdentity? || s.ChunkData?
  }

  /** What strictly falls along every `REEXECUTE` edge. */
  function Rank(s: State): nat {
    match s
    case HeaderValueLws => 3
    case HeaderValueDiscardLws => 3
    case HeaderFieldStart => 2
    case HeadersAlmostDone => 1
    case HeaderValue => 1
    case BodyIdentity => 1
    case _ => 0
  }

  /** The states that the loop of `http_parser_execute` runs through many bytes at a time. */
  predicate ScanState(s: State) {
    s.HeaderField? || s.HeaderValue? || BodyState(s)
  }

  /** The switch, for a byte that has been counted. */
  function Arm(q: Parser, ch: byte): (a: Act)
    requires BodyState(q.state) ==> q.contentLength > 0
    ensures a.Bad? ==> a.errno != Ok
    ensures a.Again? ==> Rank(a.q.state) < Rank(q.state) && !ScanState(a.q.state)
  {
    match q.state
    case Dead => Expect(q, ch == CR || ch == LF, Dead, ClosedConnection)
    case StartReq => StartReqArm(q, ch)
    case ReqMethod => MethodArm(q, ch)
    case ReqSpacesBeforeUrl => UrlStartArm(q, ch)
    case ReqSchema | ReqSchemaSlash | ReqSchemaSlashSlash | ReqServerStart | ReqServer | ReqServerWithAt | ReqPath
       | ReqQueryStringStart | ReqQueryString | ReqFragmentStart | ReqFragment => UrlArm(q, ch)
    case ReqHttpStart | ReqHttpH | ReqHttpHT | ReqHttpHTT | ReqHttpHTTP | ReqHttpI | ReqHttpIC
       | ReqHttpMajor | ReqHttpDot | ReqHttpMinor | ReqHttpEnd | ReqLineAlmostDone => VersionArm(q, ch)
    case HeaderFieldStart => FieldStartArm(q, ch)
    case HeaderField => FieldArm(q, ch)
    case HeaderValueStart => ValueStartArm(q, ch)
    case HeaderValue => ValueArm(q, ch)
    case HeaderValueDiscardWs | HeaderValueDiscardWsAlmostDone | HeaderValueDiscardLws | HeaderValueLws
       | HeaderAlmostDone => ValueEdgeArm(q, ch)
    case HeadersAlmostDone => HeadersAlmostDoneArm(q, ch)
    case HeadersDone => HeadersDoneArm(q, ch)
    case MessageDone => MessageDoneArm(q)
    case BodyIdentity | ChunkData => BodyArm(q)
    case ChunkSizeStart | ChunkSize | ChunkParameters | ChunkSizeAlmostDone | ChunkDataAlmostDone
       | ChunkDataDone => ChunkArm(q, ch)
  }

  // ---- One byte --------------------------------------------------------------------------------

  /** The data callbacks of an arm when this byte is the whole input of a call. */
  function OwnData(mark: MarkAct, ch: byte): seq<Event> {
    match mark
    case NoMark => []
    case Keep(k) => [Data(k, [ch])]
    case Mark(k) => [Data(k, [ch])]
    case FlushWith(k) => [Data(k, [ch])]
    case Flush(k) => [Data(k, [])]
    case MarkFlush(k) => [Data(k, [])]
    case FlushIfSet(k) => []
  }

  /** The outcome of one byte: the parser goes on, returns early to let another protocol take over, or errs. */
  datatype Step = Went(q: Parser, events: seq<Event>) | Quit(q: Parser, events: seq<Event>) | Erred(errno: Errno)

  function Prepend(events: seq<Event>, s: Step): Step {
    match s
    case Went(q, more) => Went(q, events + more)
    case Quit(q, more) => Quit(q, events + more)
    case Erred(_) => s
  }

  /** The switch with its re-executions. */
  function Exec(q: Parser, ch: byte): Step
    requires BodyState(q.state) ==> q.contentLength > 0
    decreases Rank(q.state)
  {
    match Arm(q, ch)
    case Next(q1, mark, notes) => Went(q1, OwnData(mark, ch) + notes)
    case Again(q1, mark, notes) =>
      Prepend(OwnData(mark, ch) + notes, Exec(q1, ch))
    case Leave(q1, notes) => Quit(q1, notes)
    case Bad(errno) => Erred(errno)
  }

  /** `COUNT_HEADER_SIZE(1)`. */
  function Counted(q: Parser): Parser {
    if ParsingHeader(q.state) then q.(nread := q.nread + 1) else q
  }

  function StepByte(q: Parser, ch: byte): Step
    requires BodyState(q.state) ==> q.contentLength > 0
  {
    var q1 := Counted(q);
    if ParsingHeader(q.state) && q1.nread > MAX_HEADER_SIZE then Erred(HeaderOverflow) else Exec(q1, ch)
  }
}
