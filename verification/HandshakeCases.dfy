/** Requests that show what the handshake lets through: an old version, a body that swallows frames, a fold. */
module HandshakeCases {
  import opened Bytes
  import opened HttpTypes
  import opened HttpStep
  import opened HttpRun
  import opened HttpNames
  import opened HttpTokens
  import opened HttpHeaders
  import opened HttpHead
  import opened HttpBody
  import opened HttpRequest
  import opened Handshake

  /** As section 4.2.1 of RFC 6455 has it, the value is compared without regard to case. */
  const CAPITALS: string := "WebSocket"
  const KEY: string := "dGhlIHNhbXBsZSBub25jZQ=="

  function Told(name: string, value: string): (h: Header)
    ensures |Line(h)| == |name| + |value| + 4
  {
    Header(Ascii(name), [SP], Ascii(value), false, [])
  }

  /** The five headers that are asked for. */
  function Asked(): (hs: seq<Header>)
    ensures |hs| == 5
  {
    [Told(HOST, "a"), Told(UPGRADE_NAME, CAPITALS), Told(CONNECTION_NAME, UPGRADE_NAME), Told(VERSION_NAME, "13"),
     Told(KEY_NAME, KEY)]
  }

  function Opening(major: nat, minor: nat, hs: seq<Header>): Request {
    Request(GET, [47], Http, major, minor, TIGHT, false, hs, false)
  }

  /** These headers come first, as far as their first lines tell. */
  predicate AskedIn(hs: seq<Header>) {
    |hs| >= 5 && forall i :: 0 <= i < 5 ==> hs[i].name == Asked()[i].name && hs[i].first == Asked()[i].first
  }

  /** A header with a plain name and a plain value can be taken, and is not a Content-Length if its name is of another length. */
  lemma ToldAcceptable(name: string, value: string, sized: bool)
    requires TokenText(name) && PlainText(value) && |name| != 14
    ensures Acceptable(Told(name, value), sized) && !Sizes(Told(name, value))
  {
    hide NameAfter;
    assert LegalSpace([SP]);
    NotSized(name);
    NameIsToken(name);
    TextIsLegal(value);
  }

  lemma NotSized(name: string)
    requires name != "" && |name| != 14
    ensures ClassOfName(Ascii(name)) != Sizing
  {
    NameExact(Lowered(Ascii(name)));
    ClassSizing(NameAfter(Lowered(Ascii(name))));
  }

  /** The value does not ask for chunks when it does not begin with a `c`. */
  lemma NotChunked(name: string, value: string)
    requires value != "" && Lower(value[0] as int % 256) != 99
    ensures !Chunks(Told(name, value))
  {
    assert Ascii(value)[0] == value[0] as int % 256;
  }

  /** A block that is acceptable and announces no chunks. */
  ghost predicate Plainly(hs: seq<Header>, len: nat) {
    AllAcceptable(hs, false) && !Any(hs, Chunks) && |Lines(hs)| <= len
  }

  lemma PlainlyMore(hs: seq<Header>, len: nat, h: Header)
    requires Plainly(hs, len) && Acceptable(h, Any(hs, Sizes)) && !Chunks(h)
    ensures Plainly(hs + [h], len + |Line(h)|)
    ensures Any(hs + [h], Sizes) <==> Any(hs, Sizes) || Sizes(h)
    ensures SizeOf(hs + [h], ULLONG_MAX) == if Sizes(h) then SizeIn(h.first) else SizeOf(hs, ULLONG_MAX)
  {
    hide Acceptable, Chunks, Sizes, Line, Any, SizeIn;
    assert (hs + [h])[..|hs|] == hs;
    AnySnoc(hs, h, Chunks);
    AnySnoc(hs, h, Sizes);
  }

  /** A block that can be taken and announces no body. */
  ghost predicate Bodyless(hs: seq<Header>, len: nat) {
    Plainly(hs, len) && !Any(hs, Sizes) && SizeOf(hs, ULLONG_MAX) == ULLONG_MAX
  }

  lemma PlainlyNone()
    ensures Bodyless([], 0)
  {}

  lemma Names()
    ensures TokenText(HOST) && TokenText(UPGRADE_NAME) && TokenText(CONNECTION_NAME) && TokenText(VERSION_NAME)
    ensures TokenText(KEY_NAME)
    ensures |HOST| == 4 && |UPGRADE_NAME| == 7 && |CONNECTION_NAME| == 10 && |VERSION_NAME| == 21 && |KEY_NAME| == 17
  {}

  lemma Values()
    ensures PlainText("a") && PlainText(CAPITALS) && PlainText(UPGRADE_NAME) && PlainText("13") && PlainText(KEY)
    ensures |CAPITALS| == 9 && |KEY| == 24
    ensures Lower("a"[0] as int) != 99 && Lower(CAPITALS[0] as int) != 99 && Lower(UPGRADE_NAME[0] as int) != 99
    ensures Lower("13"[0] as int) != 99 && Lower(KEY[0] as int) != 99
  {}

  lemma OneMore(hs: seq<Header>, len: nat, name: string, value: string)
    requires Bodyless(hs, len)
    requires TokenText(name) && |name| != 14 && PlainText(value) && Lower(value[0] as int) != 99
    ensures Bodyless(hs + [Told(name, value)], len + |name| + |value| + 4)
  {
    hide Plainly, Acceptable, Chunks, Sizes, Any, Told;
    assert 0 <= value[0] as int < 256;
    ToldAcceptable(name, value, false);
    NotChunked(name, value);
    PlainlyMore(hs, len, Told(name, value));
  }

  lemma Added(hs: seq<Header>, len: nat, name: string, value: string, all: seq<Header>, total: nat)
    requires Bodyless(hs, len) && TokenText(name) && |name| != 14 && PlainText(value) && Lower(value[0] as int) != 99
    requires all == hs + [Told(name, value)] && len + |name| + |value| + 4 <= total
    ensures Bodyless(all, total)
  {
    hide Plainly, Any, Told, TokenText, PlainText;
    OneMore(hs, len, name, value);
    MoreRoom(all, len + |name| + |value| + 4, total);
  }

  lemma AskedTwo()
    ensures Bodyless(Asked()[..2], 29)
  {
    hide Bodyless, Told, TokenText, PlainText;
    Names();
    Values();
    var hs := Asked();
    PlainlyNone();
    Added([], 0, HOST, "a", hs[..1], 9);
    Added(hs[..1], 9, UPGRADE_NAME, CAPITALS, hs[..2], 29);
  }

  lemma AskedBefore()
    ensures Bodyless(Asked()[..3], 50)
  {
    hide Bodyless, Told, TokenText, PlainText;
    Names();
    Values();
    var hs := Asked();
    AskedTwo();
    Added(hs[..2], 29, CONNECTION_NAME, UPGRADE_NAME, hs[..3], 50);
  }

  /** The five headers can be taken and announce no body. */
  lemma AskedPlainly()
    ensures Bodyless(Asked(), 200)
  {
    hide Bodyless, Told, TokenText, PlainText;
    Names();
    Values();
    AskedBefore();
    var hs := Asked();
    Added(hs[..3], 50, VERSION_NAME, "13", hs[..4], 77);
    Added(hs[..4], 77, KEY_NAME, KEY, hs, 200);
  }

  lemma MoreRoom(hs: seq<Header>, k: nat, l: nat)
    requires Plainly(hs, k) && k <= l
    ensures Plainly(hs, l)
  {}

  lemma {:induction false} FirstValueAt(hs: seq<Header>, i: nat, name: seq<byte>)
    requires i < |hs| && hs[i].name == name && forall j :: 0 <= j < i ==> hs[j].name != name
    ensures FirstValue(hs, name) == Some(hs[i].first)
  {
    if i > 0 {
      FirstValueAt(hs[1..], i - 1, name);
    }
  }

  /** Such a request is answered by switching, whatever unfolded headers follow, if the version passes the test. */
  lemma OpeningAccepted(major: nat, minor: nat, hs: seq<Header>)
    requires (major > 1 || minor >= 1) && AskedIn(hs)
    ensures var r := Opening(major, minor, hs);
      Judged(r) == SwitchingProtocols(Ascii(KEY)) && AnswerTo(r) == if Named(hs) then Judged(r) else Aborted
  {
    hide AnswerTo, Judged, FirstValue, AskedIn, Named;
    Names();
    Values();
    AskedAt(hs);
    FirstValueAt(hs, 0, Ascii(HOST));
    FirstValueAt(hs, 1, Ascii(UPGRADE_NAME));
    FirstValueAt(hs, 2, Ascii(CONNECTION_NAME));
    FirstValueAt(hs, 3, Ascii(VERSION_NAME));
    FirstValueAt(hs, 4, Ascii(KEY_NAME));
    CapitalsDoNotMatter();
    AcceptedIff(Opening(major, minor, hs));
  }

  lemma AskedAt(hs: seq<Header>)
    requires AskedIn(hs)
    ensures |hs| >= 5
    ensures hs[0].name == Ascii(HOST) && hs[0].first == Ascii("a")
    ensures hs[1].name == Ascii(UPGRADE_NAME) && hs[1].first == Ascii(CAPITALS)
    ensures hs[2].name == Ascii(CONNECTION_NAME) && hs[2].first == Ascii(UPGRADE_NAME)
    ensures hs[3].name == Ascii(VERSION_NAME) && hs[3].first == Ascii("13")
    ensures hs[4].name == Ascii(KEY_NAME) && hs[4].first == Ascii(KEY)
  {
    hide Ascii;
    assert forall i :: 0 <= i < 5 ==> hs[i].name == Asked()[i].name && hs[i].first == Asked()[i].first;
  }

  lemma CapitalsDoNotMatter()
    ensures SaysWebSocket(Ascii(CAPITALS))
  {}

  lemma OpeningLegal(major: nat, minor: nat, hs: seq<Header>)
    requires major <= 9 && minor <= 9 && Plainly(hs, 300)
    ensures LegalRequest(Opening(major, minor, hs)) && |Wire(Opening(major, minor, hs))| <= 400
  {
    hide Any, AllAcceptable, Lines;
    PathIsLegal(GET, [47]);
    assert |MethodString(GET)| == 3;
  }

  lemma ToldWritten(name: string, value: string, line: string)
    requires line == name + ": " + value + "\r\n"
    ensures Line(Told(name, value)) == Ascii(line)
  {
    AsciiAppend(name + ": " + value, "\r\n");
    AsciiAppend(name + ": ", value);
    AsciiAppend(name, ": ");
    assert Ascii("\r\n") == [CR, LF] && Ascii(": ") == [COLON, SP];
    hide Ascii;
    assert Line(Told(name, value)) == Ascii(name) + [COLON] + [SP] + Ascii(value) + [CR, LF] + [];
  }

  /** The headers that are asked for, as they are written. */
  lemma AskedWritten()
    ensures Lines(Asked()) == Ascii("Host: a\r\n") + (Ascii("Upgrade: WebSocket\r\n") + (Ascii("Connection: Upgrade\r\n")
      + (Ascii("Sec-WebSocket-Version: 13\r\n") + Ascii("Sec-WebSocket-Key: " + "dGhlIHNhbXBsZSBub25jZQ==" + "\r\n"))))
  {
    hide Ascii, Line, Told, Lines;
    ShortWritten();
    VersionWritten();
    KeyWritten();
    FiveLines(Asked());
  }

  lemma ShortWritten()
    ensures Line(Told(HOST, "a")) == Ascii("Host: a\r\n")
    ensures Line(Told(UPGRADE_NAME, CAPITALS)) == Ascii("Upgrade: WebSocket\r\n")
    ensures Line(Told(CONNECTION_NAME, UPGRADE_NAME)) == Ascii("Connection: Upgrade\r\n")
  {
    hide Ascii, Line, Told;
    ToldWritten(HOST, "a", "Host: a\r\n");
    ToldWritten(UPGRADE_NAME, CAPITALS, "Upgrade: WebSocket\r\n");
    ToldWritten(CONNECTION_NAME, UPGRADE_NAME, "Connection: Upgrade\r\n");
  }

  lemma VersionWritten()
    ensures Line(Told(VERSION_NAME, "13")) == Ascii("Sec-WebSocket-Version: 13\r\n")
  {
    hide Ascii, Line, Told;
    ToldWritten(VERSION_NAME, "13", "Sec-WebSocket-Version: 13\r\n");
  }

  lemma KeyWritten()
    ensures Line(Told(KEY_NAME, KEY)) == Ascii("Sec-WebSocket-Key: " + "dGhlIHNhbXBsZSBub25jZQ==" + "\r\n")
  {
    hide Ascii, Line, Told;
    assert KEY_NAME + ": " == "Sec-WebSocket-Key: ";
    ToldWritten(KEY_NAME, KEY, "Sec-WebSocket-Key: " + "dGhlIHNhbXBsZSBub25jZQ==" + "\r\n");
  }

  lemma FiveLines(hs: seq<Header>)
    requires |hs| == 5
    ensures Lines(hs) == Line(hs[0]) + (Line(hs[1]) + (Line(hs[2]) + (Line(hs[3]) + Line(hs[4]))))
  {
    assert hs == [hs[0]] + hs[1..] && hs[1..] == [hs[1]] + hs[2..] && hs[2..] == [hs[2]] + hs[3..];
    assert hs[3..] == [hs[3]] + hs[4..] && hs[4..] == [hs[4]] + [];
    LinesCons(hs[0], hs[1..]);
    LinesCons(hs[1], hs[2..]);
    LinesCons(hs[2], hs[3..]);
    LinesCons(hs[3], hs[4..]);
    LinesCons(hs[4], []);
    hide Line;
    assert Lines([]) == [] && Line(hs[4]) + [] == Line(hs[4]);
  }

  lemma LineWritten()
    ensures LineWire(Opening(1, 1, Asked())) == Ascii("GET / HTTP/1.1\r\n") && Ending(false) == Ascii("\r\n")
  {
    hide Asked;
  }

  /** A handshake, byte by byte, is answered by switching protocols, and the parser leaves behind it. */
  lemma HandshakeExample()
    ensures Good(INITIAL)
    ensures var r, bytes := Opening(1, 1, Asked()), Ascii("GET / HTTP/1.1\r\n")
        + (Ascii("Host: a\r\n") + (Ascii("Upgrade: WebSocket\r\n") + (Ascii("Connection: Upgrade\r\n")
        + (Ascii("Sec-WebSocket-Version: 13\r\n") + Ascii("Sec-WebSocket-Key: " + "dGhlIHNhbXBsZSBub25jZQ==" + "\r\n")))))
        + Ascii("\r\n");
      && LegalRequest(r) && Wire(r) == bytes && AnswerTo(r) == SwitchingProtocols(Ascii("dGhlIHNhbXBsZSBub25jZQ=="))
      && Over(Live(INITIAL, [], 0), bytes).Left? && Over(Live(INITIAL, [], 0), bytes).n == |bytes|
  {
    hide Plainly, Asked, AnswerTo, Judged, LegalRequest, Named, Ascii, Good, Over, LineWire, Lines, Ending, AnnouncesBody;
    AskedPlainly();
    AskedNamed();
    MoreRoom(Asked(), 200, 300);
    OpeningLegal(1, 1, Asked());
    OpeningAccepted(1, 1, Asked());
    AskedWritten();
    LineWritten();
    NoBodyAsked();
    HandoverIff(Opening(1, 1, Asked()), []);
  }

  lemma NoBodyAsked()
    ensures !AnnouncesBody(Opening(1, 1, Asked()))
  {
    hide Any, Asked;
    AskedPlainly();
  }

  /** A request of version 0.1 is accepted as a handshake. */
  lemma AncientVersionAccepted()
    ensures var r := Opening(0, 1, Asked());
      LegalRequest(r) && |Wire(r)| <= MAX_HEADER_SIZE && AnswerTo(r) == SwitchingProtocols(Ascii(KEY)) && r.major == 0
  {
    hide Plainly, Asked, AnswerTo, Judged, LegalRequest, Wire, Named;
    AskedPlainly();
    AskedNamed();
    MoreRoom(Asked(), 200, 300);
    OpeningLegal(0, 1, Asked());
    OpeningAccepted(0, 1, Asked());
  }

  /** So is one whose first line ends behind the target, which the parser takes for version 0.9. */
  lemma UnversionedAccepted()
    ensures var r := Opening(0, 9, Asked()).(protocol := Unversioned);
      LegalRequest(r) && |Wire(r)| <= MAX_HEADER_SIZE && AnswerTo(r) == SwitchingProtocols(Ascii(KEY))
  {
    hide Plainly, Asked, Named, CollectedBy, OnHeaderComplete, AllAcceptable, Any;
    AskedPlainly();
    AskedNamed();
    MoreRoom(Asked(), 200, 300);
    OpeningLegal(0, 9, Asked());
    OpeningAccepted(0, 9, Asked());
  }

  const LENGTH_NAME: string := "Content-Length"

  lemma SizingName()
    ensures ClassOfName(Ascii(LENGTH_NAME)) == Sizing
  {
    hide At, PrefixOf, NameAfter;
    assert Lowered(Ascii(LENGTH_NAME)) == Ascii(CONTENT_LENGTH);
    NameExact(Ascii(CONTENT_LENGTH));
  }

  lemma FiveIsLegal(v: seq<byte>)
    requires v == [53]
    ensures LegalLength(v) && SizeIn(v) == 5
  {
    assert NumberEnd(v) == 1 && v[..1] == v && v[..0] == [];
  }

  lemma FiveWritten()
    ensures Ascii("5") == [53]
  {}

  lemma LengthTold()
    ensures var h := Told(LENGTH_NAME, "5");
      Acceptable(h, false) && Sizes(h) && !Chunks(h) && SizeIn(h.first) == 5
  {
    hide ClassOfName, IsToken, SizeIn, LegalLength, LegalValue, Says, Ascii;
    assert LegalSpace([SP]);
    SizingName();
    NameIsToken(LENGTH_NAME);
    FiveWritten();
    FiveIsLegal(Ascii("5"));
  }

  /**
    A request that announces a body of five bytes is accepted as a handshake too, and the first five
    bytes of the frames that arrive with it are taken for that body and not given to the frame decoder.
  */
  lemma BodySwallowsFrames(frames: seq<byte>)
    requires |frames| == 5
    ensures Good(INITIAL)
    ensures var r := Opening(1, 1, Asked() + [Told(LENGTH_NAME, "5")]);
      && LegalRequest(r) && |Wire(r)| <= MAX_HEADER_SIZE && AnswerTo(r) == SwitchingProtocols(Ascii(KEY))
      && var run := Over(Live(INITIAL, [], 0), Wire(r) + frames);
         run.Left? && run.n == |Wire(r)| + 5 && BodyOf(run.trace) == frames
  {
    hide Plainly, Asked, AnswerTo, Judged, Named, LegalRequest, Wire, Told, Advance, Good, Over, LedgerOf, BodyOf;
    InitialIsGood();
    AskedPlainly();
    LengthTold();
    var h := Told(LENGTH_NAME, "5");
    PlainlyMore(Asked(), 200, h);
    assert |Line(h)| == |LENGTH_NAME| + |"5"| + 4 <= 100;
    MoreRoom(Asked() + [h], 200 + |Line(h)|, 300);
    var r := Opening(1, 1, Asked() + [h]);
    OpeningLegal(1, 1, r.headers);
    OpeningAccepted(1, 1, r.headers);
    AskedNamed();
    FramesTaken(r, frames);
  }

  lemma AskedNamed()
    ensures Named(Asked()) && Named(Asked() + [Told(LENGTH_NAME, "5")])
  {}

  /** Of an accepted request that announces so many bytes, the parser takes exactly so many frame bytes for its body. */
  lemma FramesTaken(r: Request, frames: seq<byte>)
    requires LegalRequest(r) && |Wire(r)| <= MAX_HEADER_SIZE && AnswerTo(r).SwitchingProtocols?
    requires !Any(r.headers, Chunks) && SizeOf(r.headers, ULLONG_MAX) == |frames| && 0 < |frames| < ULLONG_MAX
    ensures Good(INITIAL)
    ensures var run := Over(Live(INITIAL, [], 0), Wire(r) + frames);
      run.Left? && run.n == |Wire(r)| + |frames| && BodyOf(run.trace) == frames
  {
    hide LegalTarget, AllAcceptable, Wire, Good, Any, AnswerTo, BodyOf, SizeOf, Over, LedgerOf;
    var q, t := SizedHead(r);
    OverAppend(Live(INITIAL, [], 0), Wire(r), frames);
    FramesBehind(q, t, |Wire(r)|, frames);
  }

  /** Where the parser is behind the head of such a request. */
  lemma SizedHead(r: Request) returns (q: GoodParser, t: seq<Event>)
    requires LegalRequest(r) && |Wire(r)| <= MAX_HEADER_SIZE && AnswerTo(r).SwitchingProtocols?
    requires !Any(r.headers, Chunks) && 0 < SizeOf(r.headers, ULLONG_MAX) < ULLONG_MAX
    ensures Good(INITIAL) && Over(Live(INITIAL, [], 0), Wire(r)) == Live(q, t, |Wire(r)|)
    ensures q.state == BodyIdentity && q.upgrade && q.contentLength == SizeOf(r.headers, ULLONG_MAX)
    ensures LedgerOf(t) == Ledger([], [])
  {
    hide Good, LegalTarget, LegalSpacing, AllAcceptable, Wire, Emit, Any, AnswerTo, SizeOf, HeaderTrace, LineTrace, Over, LedgerOf,
      BlankLine, BlockFlags, HeadersEvent, AsksForUpgrade;
    InitialIsGood();
    var q1 := RequestRead(INITIAL, [], 0, r);
    AcceptedSwitches(r);
    RequestTold(q1, r);
    HeadFlags(q1.flags, r.headers);
    IntoSized(q1, HeaderTrace(LineTrace([], r), r.headers));
    NoBodyYet(r, HeadersEvent(q1));
    q, t := HeadDone(q1, BodyIdentity), Emit(HeaderTrace(LineTrace([], r), r.headers), HeadersEvent(q1));
    assert q.upgrade == AsksForUpgrade(q1);
  }

  lemma IntoSized(q: Parser, trace: seq<Event>)
    requires !q.flags.chunked && 0 < q.contentLength < ULLONG_MAX && q.meth != CONNECT
    ensures BlankLine(q, trace) == Some((HeadDone(q, BodyIdentity), Emit(trace, HeadersEvent(q)), true))
  {
    hide Emit, HeadersEvent;
  }

  lemma FramesBehind(q: GoodParser, t: seq<Event>, n: nat, frames: seq<byte>)
    requires q.state == BodyIdentity && |frames| == q.contentLength && LedgerOf(t) == Ledger([], [])
    ensures var run := Over(Live(q, t, n), frames);
      !run.Failed? && (run.Left? <==> q.upgrade) && run.n == n + |frames| && BodyOf(run.trace) == frames
  {
    hide Over, Good, Emit, NewMessage, LedgerOf, BodyOf;
    IdentityRead(q, t, n, frames);
    LedgerEmit(t, Data(Body, frames));
    LedgerEmit(Emit(t, Data(Body, frames)), MessageComplete);
    LedgerBalances(Over(Live(q, t, n), frames).trace);
    assert [] + frames == frames && Concat([frames]) == frames + Concat([]) == frames && frames + [] == frames;
  }

  lemma NoBodyYet(r: Request, e: Event)
    requires e.HeadersComplete?
    ensures LedgerOf(Emit(HeaderTrace(LineTrace([], r), r.headers), e)) == Ledger([], [])
  {
    hide Emit, HeaderTrace;
    LedgerEmit([], MessageBegin);
    LedgerEmit(Emit([], MessageBegin), Data(Url, r.target));
    HeadersBooked(LineTrace([], r), r.headers);
    LedgerEmit(HeaderTrace(LineTrace([], r), r.headers), e);
  }

  // ---- A folded Connection header --------------------------------------------------------------

  const NOTHING_MORE: Fold := Fold(SP, [], false)

  /** The five headers, the Connection header folded over an empty line. */
  function FoldedAsked(): (hs: seq<Header>)
    ensures |hs| == 5
  {
    Asked()[2 := Asked()[2].(folds := [NOTHING_MORE])]
  }

  lemma FoldedTold(name: string, value: string)
    requires TokenText(name) && PlainText(value) && |name| != 14
    ensures var h := Told(name, value).(folds := [NOTHING_MORE]);
      Acceptable(h, false) && !Sizes(h) && !Chunks(h) && |Line(h)| == |name| + |value| + 7
  {
    hide ClassOfName, IsToken, LegalSpace, LegalValue, Ascii;
    ToldAcceptable(name, value, false);
    assert [NOTHING_MORE][..0] == [];
  }

  lemma FoldedPlainly()
    ensures Bodyless(FoldedAsked(), 300)
  {
    hide Bodyless, Told, TokenText, PlainText;
    Names();
    Values();
    AskedTwo();
    var hs, us := FoldedAsked(), Asked();
    assert hs[..2] == us[..2];
    OneFolded(hs[..2], 29, CONNECTION_NAME, UPGRADE_NAME);
    assert hs[..3] == hs[..2] + [Told(CONNECTION_NAME, UPGRADE_NAME).(folds := [NOTHING_MORE])];
    Added(hs[..3], 53, VERSION_NAME, "13", hs[..4], 80);
    Added(hs[..4], 80, KEY_NAME, KEY, hs, 300);
  }

  lemma OneFolded(hs: seq<Header>, len: nat, name: string, value: string)
    requires Bodyless(hs, len) && TokenText(name) && |name| != 14 && PlainText(value)
    ensures Bodyless(hs + [Told(name, value).(folds := [NOTHING_MORE])], len + |name| + |value| + 7)
  {
    hide Plainly, Acceptable, Chunks, Sizes, Any, Told, SizeIn;
    FoldedTold(name, value);
    PlainlyMore(hs, len, Told(name, value).(folds := [NOTHING_MORE]));
  }

  lemma NotConnecting(name: string)
    requires name != "" && |name| != 10 && |name| != 16
    ensures ClassOfName(Ascii(name)) != Connecting
  {
    hide At, PrefixOf;
    NameExact(Lowered(Ascii(name)));
    ConnectionLengths();
  }

  lemma ConnectionLengths()
    ensures |CONNECTION| == 10 && |PROXY_CONNECTION| == 16
  {}

  lemma NoneAsks()
    ensures !Any(FoldedAsked(), AsksUpgrade)
  {
    hide ClassOfName, Asks, Told, Ascii, Texts;
    var hs := FoldedAsked();
    FoldedIsAsked();
    AskedAt(hs);
    NotConnecting(HOST);
    NotConnecting(UPGRADE_NAME);
    NotConnecting(VERSION_NAME);
    NotConnecting(KEY_NAME);
    UpgradeTakenBack();
    OneText();
    assert hs[2].folds == [NOTHING_MORE];
    forall i | 0 <= i < 5
      ensures !AsksUpgrade(hs[i])
    {
      assert i == 0 || i == 1 || i == 2 || i == 3 || i == 4;
    }
  }

  lemma OneText()
    ensures Texts([NOTHING_MORE]) == [[]]
  {
    assert [NOTHING_MORE][..0] == [];
  }

  lemma UpgradeTakenBack()
    ensures !Asks(Ascii(UPGRADE_NAME), [[]], UPGRADE)
  {
    assert TokenEnd(Ascii(UPGRADE_NAME)) == |UPGRADE_NAME|;
  }

  /**
    A handshake whose Connection header is folded, even over an empty line, fails the assertion of
    `setHeaderValue` and is not answered. Without that assertion it would be answered by switching, while
    the parser would not take it for a request to switch.
  */
  lemma FoldedAborts()
    ensures var r := Opening(1, 1, FoldedAsked());
      && LegalRequest(r) && |Wire(r)| <= MAX_HEADER_SIZE && AnswerTo(r) == Aborted
      && Judged(r) == SwitchingProtocols(Ascii(KEY)) && !Switches(r) && !AnnouncesBody(r)
  {
    hide Plainly, AnswerTo, Judged, LegalRequest, Wire, FoldedAsked, Any, SizeOf;
    FoldedPlainly();
    var r := Opening(1, 1, FoldedAsked());
    OpeningLegal(1, 1, r.headers);
    FoldedIsAsked();
    OpeningAccepted(1, 1, r.headers);
    OneIsFolded();
    NoneAsks();
    PlainlyChunks(r.headers, 300);
  }

  lemma OneIsFolded()
    ensures !Named(FoldedAsked())
  {
    hide Told;
    assert FoldedAsked()[2].folds == [NOTHING_MORE];
  }

  lemma FoldedIsAsked()
    ensures AskedIn(FoldedAsked())
  {
    hide Told;
  }

  lemma PlainlyChunks(hs: seq<Header>, len: nat)
    requires Plainly(hs, len)
    ensures !Any(hs, Chunks)
  {}
}
