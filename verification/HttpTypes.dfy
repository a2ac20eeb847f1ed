/** The parser's state, its tables and its character classes (src/http_parser.c, strict mode, requests). */
module HttpTypes {
  import opened Bytes

  const CR: byte := 13
  const LF: byte := 10
  const SP: byte := 32
  const HT: byte := 9
  const COLON: byte := 58

  const MAX_HEADER_SIZE: nat := 80 * 1024
  const ULLONG_MAX: nat := 0xffff_ffff_ffff_ffff

  datatype State =
    | Dead | StartReq | ReqMethod | ReqSpacesBeforeUrl
    | ReqSchema | ReqSchemaSlash | ReqSchemaSlashSlash | ReqServerStart | ReqServer | ReqServerWithAt
    | ReqPath | ReqQueryStringStart | ReqQueryString | ReqFragmentStart | ReqFragment
    | ReqHttpStart | ReqHttpH | ReqHttpHT | ReqHttpHTT | ReqHttpHTTP | ReqHttpI | ReqHttpIC
    | ReqHttpMajor | ReqHttpDot | ReqHttpMinor | ReqHttpEnd | ReqLineAlmostDone
    | HeaderFieldStart | HeaderField
    | HeaderValueDiscardWs | HeaderValueDiscardWsAlmostDone | HeaderValueDiscardLws
    | HeaderValueStart | HeaderValue | HeaderValueLws | HeaderAlmostDone
    | ChunkSizeStart | ChunkSize | ChunkParameters | ChunkSizeAlmostDone
    | HeadersAlmostDone | HeadersDone
    | ChunkData | ChunkDataAlmostDone | ChunkDataDone | BodyIdentity | MessageDone

  datatype HeaderState =
    | General | C | CO | CON
    | MatchingConnection | MatchingProxyConnection | MatchingContentLength | MatchingTransferEncoding | MatchingUpgrade
    | Connection | ContentLength | ContentLengthNum | ContentLengthWs | TransferEncoding | Upgrade
    | MatchingChunked | TokenStart | MatchingKeepAlive | MatchingClose | MatchingConnectionUpgrade | Token
    | Chunked | KeepAlive | Close | ConnectionUpgrade

  datatype Method =
    | DELETE | GET | HEAD | POST | PUT | CONNECT | OPTIONS | TRACE
    | COPY | LOCK | MKCOL | MOVE | PROPFIND | PROPPATCH | SEARCH | UNLOCK | BIND | REBIND | UNBIND | ACL
    | REPORT | MKACTIVITY | CHECKOUT | MERGE
    | MSEARCH | NOTIFY | SUBSCRIBE | UNSUBSCRIBE
    | PATCH | PURGE | MKCALENDAR | LINK | UNLINK | SOURCE

  datatype Errno =
    | Ok | InvalidEofState | HeaderOverflow | ClosedConnection | InvalidVersion | InvalidMethod | InvalidUrl
    | LfExpected | InvalidHeaderToken | InvalidContentLength | UnexpectedContentLength | InvalidChunkSize
    | InvalidConstant | Strict

  datatype Flags = Flags(
    chunked: bool, keepAlive: bool, close: bool, connectionUpgrade: bool,
    trailing: bool, upgrade: bool, contentLength: bool)

  const NO_FLAGS: Flags := Flags(false, false, false, false, false, false, false)

  /** The fields of `struct http_parser` that a request parser uses, `http_errno` apart. */
  datatype Parser = Parser(
    state: State,
    headerState: HeaderState,
    index: nat,
    flags: Flags,
    nread: nat,
    contentLength: nat,
    major: nat,
    minor: nat,
    meth: Method,
    upgrade: bool)

  /** `http_parser_init` for a request. */
  const INITIAL: Parser := Parser(StartReq, General, 0, NO_FLAGS, 0, 0, 0, 0, DELETE, false)

  datatype Kind = Url | Field | Value | Body

  /** What the headers say of a body, as `on_headers_complete` reads it off the parser: chunks count before a length. */
  datatype Sizing = Unsaid | InChunks | OfLength(size: nat)

  function SizingOf(chunked: bool, length: nat): Sizing {
    if chunked then InChunks else if length == ULLONG_MAX then Unsaid else OfLength(length)
  }

  /** A callback: data for one of four kinds, or a notification with what it can see of the parser. */
  datatype Event =
    | Data(kind: Kind, bytes: seq<byte>)
    | MessageBegin
    | HeadersComplete(meth: Method, major: nat, minor: nat, upgrade: bool, sizing: Sizing)
    | ChunkHeader(length: nat)
    | ChunkComplete
    | MessageComplete

  /** `PARSING_HEADER`. */
  predicate ParsingHeader(s: State) {
    !(s.ChunkData? || s.ChunkDataAlmostDone? || s.ChunkDataDone? || s.BodyIdentity? || s.MessageDone?)
  }

  /** The states in which a URL is being collected. */
  predicate UrlState(s: State) {
    s.ReqSchema? || s.ReqSchemaSlash? || s.ReqSchemaSlashSlash? || s.ReqServerStart? || s.ReqServer?
    || s.ReqServerWithAt? || s.ReqPath? || s.ReqQueryStringStart? || s.ReqQueryString?
    || s.ReqFragmentStart? || s.ReqFragment?
  }

  // ---- Character classes -----------------------------------------------------------------------

  /** `c | 0x20`. */
  function Lower(c: byte): byte {
    if c / 32 % 2 == 1 then c else c + 32
  }

  predicate IsAlpha(c: byte) {
    97 <= Lower(c) <= 122
  }

  predicate IsNum(c: byte) {
    48 <= c <= 57
  }

  predicate IsHex(c: byte) {
    IsNum(c) || 97 <= Lower(c) <= 102
  }

  /** `- _ . ! ~ * ' ( )`. */
  predicate IsMark(c: byte) {
    c == 45 || c == 95 || c == 46 || c == 33 || c == 126 || c == 42 || c == 39 || c == 40 || c == 41
  }

  predicate IsUserinfoChar(c: byte) {
    IsAlpha(c) || IsNum(c) || IsMark(c) || c == 37 || c == 59 || c == 58 || c == 38 || c == 61 || c == 43
    || c == 36 || c == 44
  }

  /** The bit table `normal_url_char`: visible ASCII without `#` and `?`. */
  predicate IsUrlChar(c: byte) {
    33 <= c <= 126 && c != 35 && c != 63
  }

  predicate IsHostChar(c: byte) {
    IsAlpha(c) || IsNum(c) || c == 46 || c == 45
  }

  predicate IsHeaderChar(c: byte) {
    c == CR || c == LF || c == HT || (c > 31 && c != 127)
  }

  /** `TOKEN`: 0 for a byte that cannot be in a token, else the byte in lower case. */
  function TokenOf(c: byte): byte {
    if 65 <= c <= 90 then c + 32
    else if IsNum(c) || 97 <= c <= 122 then c
    else if c == 33 || 35 <= c <= 39 || c == 42 || c == 43 || c == 45 || c == 46 || 94 <= c <= 96 || c == 124 || c == 126
    then c
    else 0
  }

  /**
    The table `unhex`. Only its first 128 entries are initialised to digit values or -1; the
    other half is zero, so a byte of 128 or more counts as the digit 0.
  */
  function Unhex(c: byte): int {
    if IsNum(c) then c - 48
    else if 65 <= c <= 70 then c - 55
    else if 97 <= c <= 102 then c - 87
    else if c >= 128 then 0
    else -1
  }

  // ---- Words -----------------------------------------------------------------------------------

  function Ascii(s: string): (r: seq<byte>)
    ensures |r| == |s|
  {
    seq(|s|, i requires 0 <= i < |s| => s[i] as int % 256)
  }

  lemma AsciiAppend(a: string, b: string)
    ensures Ascii(a + b) == Ascii(a) + Ascii(b)
  {}

  function MethodString(m: Method): string {
    match m
    case DELETE => "DELETE" case GET => "GET" case HEAD => "HEAD" case POST => "POST" case PUT => "PUT"
    case CONNECT => "CONNECT" case OPTIONS => "OPTIONS" case TRACE => "TRACE" case COPY => "COPY" case LOCK => "LOCK"
    case MKCOL => "MKCOL" case MOVE => "MOVE" case PROPFIND => "PROPFIND" case PROPPATCH => "PROPPATCH"
    case SEARCH => "SEARCH" case UNLOCK => "UNLOCK" case BIND => "BIND" case REBIND => "REBIND"
    case UNBIND => "UNBIND" case ACL => "ACL" case REPORT => "REPORT" case MKACTIVITY => "MKACTIVITY"
    case CHECKOUT => "CHECKOUT" case MERGE => "MERGE" case MSEARCH => "M-SEARCH" case NOTIFY => "NOTIFY"
    case SUBSCRIBE => "SUBSCRIBE" case UNSUBSCRIBE => "UNSUBSCRIBE" case PATCH => "PATCH" case PURGE => "PURGE"
    case MKCALENDAR => "MKCALENDAR" case LINK => "LINK" case UNLINK => "UNLINK" case SOURCE => "SOURCE"
  }

  const CONNECTION: string := "connection"
  const PROXY_CONNECTION: string := "proxy-connection"
  const CONTENT_LENGTH: string := "content-length"
  const TRANSFER_ENCODING: string := "transfer-encoding"
  const UPGRADE: string := "upgrade"
  const CHUNKED: string := "chunked"
  const KEEP_ALIVE: string := "keep-alive"
  const CLOSE: string := "close"

  /** `c == word[i]`, false past the end of the word. */
  predicate At(word: string, i: nat, c: byte) {
    i < |word| && word[i] as int == c
  }

  // ---- Canonical traces ------------------------------------------------------------------------

  /** Adding an event, a data callback being glued to one of the same kind right before it. */
  function Emit(trace: seq<Event>, e: Event): seq<Event> {
    if e.Data? && trace != [] && trace[|trace| - 1].Data? && trace[|trace| - 1].kind == e.kind then
      trace[..|trace| - 1] + [Data(e.kind, trace[|trace| - 1].bytes + e.bytes)]
    else trace + [e]
  }

  function EmitAll(trace: seq<Event>, events: seq<Event>): seq<Event> {
    if events == [] then trace
    else Emit(EmitAll(trace, events[..|events| - 1]), events[|events| - 1])
  }

  /** How data is cut into callbacks does not show in the canonical trace. */
  lemma EmitData(trace: seq<Event>, k: Kind, a: seq<byte>, b: seq<byte>)
    ensures Emit(Emit(trace, Data(k, a)), Data(k, b)) == Emit(trace, Data(k, a + b))
  {
    if trace != [] && trace[|trace| - 1].Data? && trace[|trace| - 1].kind == k {
      var last := trace[|trace| - 1].bytes;
      assert last + a + b == last + (a + b);
    }
  }

  /** One more byte of the same data. */
  lemma EmitByte(trace: seq<Event>, k: Kind, t: seq<byte>, i: nat)
    requires i < |t|
    ensures Emit(Emit(trace, Data(k, t[..i])), Data(k, [t[i]])) == Emit(trace, Data(k, t[..i + 1]))
  {
    hide Emit;
    EmitData(trace, k, t[..i], [t[i]]);
    assert t[..i + 1] == t[..i] + [t[i]];
  }

  lemma {:induction false} EmitAllAppend(trace: seq<Event>, a: seq<Event>, b: seq<Event>)
    ensures EmitAll(trace, a + b) == EmitAll(EmitAll(trace, a), b)
  {
    if b == [] {
      assert a + b == a;
    } else {
      assert (a + b)[..|a + b| - 1] == a + b[..|b| - 1];
      EmitAllAppend(trace, a, b[..|b| - 1]);
    }
  }

  lemma EmitAllNone(trace: seq<Event>)
    ensures EmitAll(trace, []) == trace
  {}

  lemma EmitAllOne(trace: seq<Event>, e: Event)
    ensures EmitAll(trace, [e]) == Emit(trace, e)
  {
    assert [e][..0] == [];
  }
}
