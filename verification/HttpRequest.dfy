/** Whole requests: what a client writes is what the callbacks deliver. */
module HttpRequest {
  import opened Bytes
  import opened HttpTypes
  import opened HttpStep
  import opened HttpRun
  import opened HttpFeed
  import opened HttpNames
  import opened HttpHeaders
  import opened HttpHead
  import opened HttpParserModule

  /** What may stand around the parts of a request line: line ends before it, and spaces before target and version. */
  datatype Spacing = Spacing(before: seq<byte>, first: seq<byte>, second: seq<byte>)

  const TIGHT: Spacing := Spacing([], [], [])

  /** What stands behind the target of a request line: an HTTP version, that of Icecast, or nothing, which is taken for HTTP/0.9. */
  datatype Protocol = Http | Ice | Unversioned

  /** A request; `bareLine` and `bareEnd` say whether its first line and its blank line end in a bare line feed. */
  datatype Request = Request(
    meth: Method, target: seq<byte>, protocol: Protocol, major: nat, minor: nat, spacing: Spacing, bareLine: bool,
    headers: seq<Header>, bareEnd: bool)

  predicate LegalSpacing(s: Spacing) {
    && (forall i :: 0 <= i < |s.before| ==> LineEnd(s.before[i]))
    && (forall i :: 0 <= i < |s.first| ==> s.first[i] == SP) && (forall i :: 0 <= i < |s.second| ==> s.second[i] == SP)
  }

  /** The protocol goes with the method and the version. */
  predicate LegalProtocol(r: Request) {
    && r.major <= 9 && r.minor <= 9
    && (r.protocol == Ice ==> r.meth == SOURCE) && (r.protocol == Unversioned ==> r.major == 0 && r.minor == 9)
  }

  /** How many bytes a protocol with its version takes. */
  function VersionSize(p: Protocol): nat {
    if p == Http then 8 else 7
  }

  function VersionWire(p: Protocol, major: nat, minor: nat): (w: seq<byte>)
    requires major <= 9 && minor <= 9
    ensures |w| == VersionSize(p)
  {
    (if p == Http then [72, 84, 84, 80] else [73, 67, 69]) + [47, 48 + major, 46, 48 + minor]
  }

  // ---- The target ------------------------------------------------------------------------------

  /** The URL state after the bytes of `t`. */
  function UrlAfter(s: State, t: seq<byte>): State {
    if t == [] then s else ParseUrlChar(UrlAfter(s, t[..|t| - 1]), t[|t| - 1])
  }

  function UrlStart(m: Method): State {
    if m == CONNECT then ReqServerStart else ReqSpacesBeforeUrl
  }

  predicate InPrefix(s: State) {
    s.ReqSchema? || s.ReqSchemaSlash? || s.ReqSchemaSlashSlash? || s.ReqServerStart?
  }

  /** A target that the URL states accept, behind its scheme if it has one. */
  predicate LegalTarget(m: Method, t: seq<byte>) {
    t != [] && UrlAfter(UrlStart(m), t) != Dead && !InPrefix(UrlAfter(UrlStart(m), t))
  }

  /** Any path of visible characters is a legal target. */
  lemma {:induction false} PathIsLegal(m: Method, t: seq<byte>)
    requires m != CONNECT && t != [] && t[0] == 47 && forall i :: 0 <= i < |t| ==> IsUrlChar(t[i])
    ensures UrlAfter(UrlStart(m), t) == ReqPath && LegalTarget(m, t)
  {
    if |t| == 1 {
      assert t[..0] == [];
    } else {
      PathIsLegal(m, t[..|t| - 1]);
      assert IsUrlChar(t[|t| - 1]);
    }
  }

  lemma {:induction false} UrlAlive(s: State, t: seq<byte>, i: nat)
    requires i <= |t| && UrlAfter(s, t) != Dead
    ensures UrlAfter(s, t[..i]) != Dead
    decreases |t| - i
  {
    if i < |t| {
      UrlAlive(s, t, i + 1);
      assert t[..i + 1][..i] == t[..i];
    } else {
      assert t[..i] == t;
    }
  }

  lemma UrlStep(s: State, t: seq<byte>, i: nat)
    requires i < |t| && UrlAfter(s, t) != Dead
    ensures var s1 := UrlAfter(s, t[..i + 1]);
      s1 == ParseUrlChar(UrlAfter(s, t[..i]), t[i]) && UrlState(s1) && t[i] != SP && t[i] != CR && t[i] != LF
  {
    UrlAlive(s, t, i + 1);
    assert t[..i + 1][..i] == t[..i];
  }

  /** The parser after `i` bytes of a target. */
  function InTarget(q: Parser, t: seq<byte>, i: nat): Parser
    requires i <= |t|
  {
    q.(state := UrlAfter(UrlStart(q.meth), t[..i]), nread := q.nread + i)
  }

  lemma TargetFirst(q: GoodParser, trace: seq<Event>, n: nat, t: seq<byte>)
    requires q.state == ReqSpacesBeforeUrl && t != [] && UrlAfter(UrlStart(q.meth), t) != Dead && Room(q, 1)
    ensures Good(InTarget(q, t, 1)) && Advance(Live(q, trace, n), t[0]) == Live(InTarget(q, t, 1), Emit(trace, Data(Url, t[..1])), n + 1)
  {
    hide Arm, Advance, Emit, MethodString, ParseUrlChar, UrlAfter, Good;
    UrlStep(UrlStart(q.meth), t, 0);
    NothingRead(UrlStart(q.meth), t);
    var q0 := q.(nread := q.nread + 1);
    UrlStartArmAt(q0, t[0]);
    TakesData(q, trace, n, t[0], InTarget(q, t, 1), Url);
    assert t[..1] == [t[0]];
  }

  lemma TargetByteAt(q: Parser, ch: byte)
    requires UrlState(q.state) && ParseUrlChar(q.state, ch) != Dead && ch != SP && ch != CR && ch != LF
    ensures Arm(q, ch) == Next(q.(state := ParseUrlChar(q.state, ch)), Keep(Url), [])
  {
    hide ParseUrlChar;
    UrlArmAt(q, ch);
  }

  lemma TargetNext(q: Parser, trace: seq<Event>, n: nat, t: seq<byte>, i: nat)
    requires UrlAfter(UrlStart(q.meth), t) != Dead && 1 <= i < |t| && Room(q, i + 1) && Good(InTarget(q, t, i))
    ensures Good(InTarget(q, t, i + 1))
    ensures Advance(Live(InTarget(q, t, i), Emit(trace, Data(Url, t[..i])), n + i), t[i])
      == Live(InTarget(q, t, i + 1), Emit(trace, Data(Url, t[..i + 1])), n + i + 1)
  {
    hide Arm, Advance, Emit, MethodString, Good, InTarget;
    TargetNextAt(q, t, i);
    TakesData(InTarget(q, t, i), Emit(trace, Data(Url, t[..i])), n + i, t[i], InTarget(q, t, i + 1), Url);
    EmitByte(trace, Url, t, i);
  }

  lemma TargetNextAt(q: Parser, t: seq<byte>, i: nat)
    requires UrlAfter(UrlStart(q.meth), t) != Dead && 1 <= i < |t|
    ensures var q0 := InTarget(q, t, i);
      && ParsingHeader(q0.state) && q0.nread == q.nread + i
      && Arm(q0.(nread := q0.nread + 1), t[i]) == Next(InTarget(q, t, i + 1), Keep(Url), [])
  {
    hide Arm, MethodString, ParseUrlChar, UrlAfter;
    UrlStep(UrlStart(q.meth), t, i);
    UrlStep(UrlStart(q.meth), t, i - 1);
    var q0 := InTarget(q, t, i);
    TargetByteAt(q0.(nread := q0.nread + 1), t[i]);
  }

  lemma {:induction false} TargetRun(q: GoodParser, trace: seq<Event>, n: nat, t: seq<byte>, i: nat)
    requires q.state == ReqSpacesBeforeUrl && UrlAfter(UrlStart(q.meth), t) != Dead && 1 <= i <= |t| && Room(q, i)
    ensures Good(InTarget(q, t, i)) && Upto(Live(q, trace, n), t, i) == Live(InTarget(q, t, i), Emit(trace, Data(Url, t[..i])), n + i)
  {
    hide Advance, Emit, MethodString, UrlAfter, Good, InTarget;
    var start := Live(q, trace, n);
    UptoStep(start, t, i - 1);
    if i == 1 {
      assert Upto(start, t, 0) == start;
      TargetFirst(q, trace, n, t);
    } else {
      TargetRun(q, trace, n, t, i - 1);
      TargetNext(q, trace, n, t, i - 1);
    }
  }

  lemma NothingRead(s: State, t: seq<byte>)
    ensures UrlAfter(s, t[..0]) == s
  {}

  lemma WholeTarget(q: GoodParser, trace: seq<Event>, n: nat, t: seq<byte>)
    requires q.state == ReqSpacesBeforeUrl && LegalTarget(q.meth, t) && Room(q, |t|)
    ensures var q1 := InTarget(q, t, |t|);
      && Good(q1) && UrlState(q1.state) && !InPrefix(q1.state) && q1.nread == q.nread + |t|
      && Over(Live(q, trace, n), t) == Live(q1, Emit(trace, Data(Url, t)), n + |t|)
  {
    hide Advance, Emit, MethodString, ParseUrlChar, UrlAfter, Good;
    TargetRun(q, trace, n, t, |t|);
    UrlStep(UrlStart(q.meth), t, |t| - 1);
    assert t[..|t|] == t;
  }

  /** A target with the space behind it is delivered whole. */
  lemma TargetRead(q: GoodParser, trace: seq<Event>, n: nat, t: seq<byte>)
    requires q.state == ReqSpacesBeforeUrl && LegalTarget(q.meth, t) && Room(q, |t| + 1)
    ensures var q1 := q.(state := ReqHttpStart, nread := q.nread + |t| + 1);
      Good(q1) && Over(Live(q, trace, n), t + [SP]) == Live(q1, Emit(trace, Data(Url, t)), n + |t| + 1)
  {
    hide Arm, Advance, Emit, MethodString, ParseUrlChar, UrlAfter, Good, Over;
    WholeTarget(q, trace, n, t);
    OverMore(Live(q, trace, n), t, SP);
    var q1 := InTarget(q, t, |t|);
    var q2 := q1.(nread := q1.nread + 1);
    UrlArmAt(q2, SP);
    TakesEnd(q1, Emit(trace, Data(Url, t)), n + |t|, SP, q2.(state := ReqHttpStart), Url);
    EmitEnd(trace, Url, t);
  }

  // ---- The version -----------------------------------------------------------------------------

  function VersionStates(p: Protocol): (ss: seq<State>)
    ensures |ss| == VersionSize(p) + 1
  {
    [ReqHttpStart] + (if p == Http then [ReqHttpH, ReqHttpHT, ReqHttpHTT] else [ReqHttpI, ReqHttpIC])
    + [ReqHttpHTTP, ReqHttpMajor, ReqHttpDot, ReqHttpMinor, ReqHttpEnd]
  }

  /** The parser after `i` bytes of the version. */
  function InVersion(q: Parser, p: Protocol, major: nat, minor: nat, i: nat): Parser
    requires i <= VersionSize(p)
  {
    q.(state := VersionStates(p)[i], nread := q.nread + i,
       major := if i >= VersionSize(p) - 2 then major else q.major, minor := if i == VersionSize(p) then minor else q.minor)
  }

  lemma VersionByte(q: Parser, p: Protocol, major: nat, minor: nat, i: nat)
    requires major <= 9 && minor <= 9 && i < VersionSize(p) && q.state == ReqHttpStart && (p == Http || q.meth == SOURCE)
    ensures VersionState(VersionStates(p)[i])
    ensures var q1 := InVersion(q, p, major, minor, i);
      VersionArm(q1.(nread := q1.nread + 1), VersionWire(p, major, minor)[i]) == Next(InVersion(q, p, major, minor, i + 1), NoMark, [])
  {
    hide VersionWire, InVersion, VersionStates, VersionArm;
    if p == Http {
      HttpByte(q, major, minor, i);
    } else {
      IceByte(q, p, major, minor, i);
    }
  }

  lemma HttpByte(q: Parser, major: nat, minor: nat, i: nat)
    requires major <= 9 && minor <= 9 && i < 8 && q.state == ReqHttpStart
    ensures VersionState(VersionStates(Http)[i])
    ensures var q1 := InVersion(q, Http, major, minor, i);
      VersionArm(q1.(nread := q1.nread + 1), VersionWire(Http, major, minor)[i]) == Next(InVersion(q, Http, major, minor, i + 1), NoMark, [])
  {
    assert VersionWire(Http, major, minor) == [72, 84, 84, 80, 47, 48 + major, 46, 48 + minor];
    assert VersionStates(Http)
      == [ReqHttpStart, ReqHttpH, ReqHttpHT, ReqHttpHTT, ReqHttpHTTP, ReqHttpMajor, ReqHttpDot, ReqHttpMinor, ReqHttpEnd];
    hide VersionWire, VersionStates;
  }

  lemma IceByte(q: Parser, p: Protocol, major: nat, minor: nat, i: nat)
    requires major <= 9 && minor <= 9 && i < 7 && q.state == ReqHttpStart && q.meth == SOURCE && p != Http
    ensures VersionState(VersionStates(p)[i])
    ensures var q1 := InVersion(q, p, major, minor, i);
      VersionArm(q1.(nread := q1.nread + 1), VersionWire(p, major, minor)[i]) == Next(InVersion(q, p, major, minor, i + 1), NoMark, [])
  {
    hide VersionWire, InVersion, VersionStates, VersionArm;
    if i < 3 {
      IceWordByte(q, p, major, minor, i);
    } else {
      IceNumberByte(q, p, major, minor, i);
    }
  }

  lemma IceWordByte(q: Parser, p: Protocol, major: nat, minor: nat, i: nat)
    requires major <= 9 && minor <= 9 && i < 3 && q.state == ReqHttpStart && q.meth == SOURCE && p != Http
    ensures VersionState(VersionStates(p)[i])
    ensures var q1 := InVersion(q, p, major, minor, i);
      VersionArm(q1.(nread := q1.nread + 1), VersionWire(p, major, minor)[i]) == Next(InVersion(q, p, major, minor, i + 1), NoMark, [])
  {
    assert VersionWire(p, major, minor)[..3] == [73, 67, 69];
    assert VersionStates(p)[..4] == [ReqHttpStart, ReqHttpI, ReqHttpIC, ReqHttpHTTP];
  }

  lemma IceNumberByte(q: Parser, p: Protocol, major: nat, minor: nat, i: nat)
    requires major <= 9 && minor <= 9 && 3 <= i < 7 && q.state == ReqHttpStart && p != Http
    ensures VersionState(VersionStates(p)[i])
    ensures var q1 := InVersion(q, p, major, minor, i);
      VersionArm(q1.(nread := q1.nread + 1), VersionWire(p, major, minor)[i]) == Next(InVersion(q, p, major, minor, i + 1), NoMark, [])
  {
    assert VersionWire(p, major, minor)[3..] == [47, 48 + major, 46, 48 + minor];
    assert VersionStates(p)[3..] == [ReqHttpHTTP, ReqHttpMajor, ReqHttpDot, ReqHttpMinor, ReqHttpEnd];
  }

  lemma InVersionShape(q: Parser, p: Protocol, major: nat, minor: nat, i: nat)
    requires i <= VersionSize(p) && q.state == ReqHttpStart
    ensures var q1 := InVersion(q, p, major, minor, i);
      q1.nread == q.nread + i && q1.state == VersionStates(p)[i] && (i == 0 ==> q1 == q)
  {}

  lemma {:induction false} VersionRun(q: GoodParser, trace: seq<Event>, n: nat, p: Protocol, major: nat, minor: nat, i: nat)
    requires q.state == ReqHttpStart && major <= 9 && minor <= 9 && i <= VersionSize(p) && Room(q, i)
    requires p == Http || q.meth == SOURCE
    ensures var q1 := InVersion(q, p, major, minor, i);
      Good(q1) && Upto(Live(q, trace, n), VersionWire(p, major, minor), i) == Live(q1, trace, n + i)
  {
    hide Arm, Advance, MethodString, VersionWire, VersionArm, Good, InVersion, VersionStates;
    InVersionShape(q, p, major, minor, i);
    if i > 0 {
      InVersionShape(q, p, major, minor, i - 1);
      VersionRun(q, trace, n, p, major, minor, i - 1);
      UptoStep(Live(q, trace, n), VersionWire(p, major, minor), i - 1);
      VersionByte(q, p, major, minor, i - 1);
      var q1, ch := InVersion(q, p, major, minor, i - 1), VersionWire(p, major, minor)[i - 1];
      var q2 := q1.(nread := q1.nread + 1);
      VersionArmAt(q2, ch);
      TakesQuietly(q1, trace, n + i - 1, ch, InVersion(q, p, major, minor, i));
    }
  }

  /** The end of the request line. */
  lemma RequestLineEnds(q: GoodParser, trace: seq<Event>, n: nat, bare: bool)
    requires q.state == ReqHttpEnd && Room(q, |Ending(bare)|)
    ensures var q1 := q.(state := HeaderFieldStart, nread := q.nread + |Ending(bare)|);
      Good(q1) && Over(Live(q, trace, n), Ending(bare)) == Live(q1, trace, n + |Ending(bare)|)
  {
    hide Arm, Advance, MethodString, Good;
    EndingOver(Live(q, trace, n), bare);
    var q0 := q.(nread := q.nread + 1);
    if bare {
      VersionArmAt(q0, LF);
      TakesQuietly(q, trace, n, LF, q0.(state := HeaderFieldStart));
    } else {
      VersionArmAt(q0, CR);
      TakesQuietly(q, trace, n, CR, q0.(state := ReqLineAlmostDone));
      LineFedOn(q0.(state := ReqLineAlmostDone), trace, n + 1);
    }
  }

  /** The line feed that ends a request line. */
  lemma LineFedOn(q: GoodParser, trace: seq<Event>, n: nat)
    requires q.state == ReqLineAlmostDone && Room(q, 1)
    ensures var q1 := q.(state := HeaderFieldStart, nread := q.nread + 1);
      Good(q1) && Advance(Live(q, trace, n), LF) == Live(q1, trace, n + 1)
  {
    hide Arm, Advance, MethodString, Good;
    VersionArmAt(q.(nread := q.nread + 1), LF);
    TakesQuietly(q, trace, n, LF, q.(state := HeaderFieldStart, nread := q.nread + 1));
  }

  /** A target that ends its line is delivered whole, and the version is taken to be 0.9. */
  lemma TargetEndsLine(q: GoodParser, trace: seq<Event>, n: nat, t: seq<byte>, bare: bool)
    requires q.state == ReqSpacesBeforeUrl && LegalTarget(q.meth, t) && Room(q, |t| + |Ending(bare)|)
    ensures var k := |t| + |Ending(bare)|; var q1 := q.(state := HeaderFieldStart, major := 0, minor := 9, nread := q.nread + k);
      Good(q1) && Over(Live(q, trace, n), t + Ending(bare)) == Live(q1, Emit(trace, Data(Url, t)), n + k)
  {
    hide Advance, Emit, UrlAfter, Good, Over, LegalTarget;
    OverAppend(Live(q, trace, n), t, Ending(bare));
    WholeTarget(q, trace, n, t);
    TargetLineOver(InTarget(q, t, |t|), trace, n + |t|, t, bare);
  }

  /** The end of a line behind a target. */
  lemma TargetLineOver(q: GoodParser, trace: seq<Event>, n: nat, t: seq<byte>, bare: bool)
    requires UrlState(q.state) && !InPrefix(q.state) && Room(q, |Ending(bare)|)
    ensures var k, t1 := |Ending(bare)|, Emit(trace, Data(Url, t));
      var q1 := q.(state := HeaderFieldStart, major := 0, minor := 9, nread := q.nread + k);
      Good(q1) && Over(Live(q, t1, n), Ending(bare)) == Live(q1, t1, n + k)
  {
    hide Advance, Emit, Good, Over, UrlState, InPrefix;
    var t1 := Emit(trace, Data(Url, t));
    EndingOver(Live(q, t1, n), bare);
    EmitEnd(trace, Url, t);
    TargetEndsAt(q, t1, n, if bare then LF else CR);
    if !bare {
      LineFedOn(q.(state := ReqLineAlmostDone, major := 0, minor := 9, nread := q.nread + 1), t1, n + 1);
    }
  }

  /** A line end behind a target. */
  lemma TargetEndsAt(q: GoodParser, trace: seq<Event>, n: nat, ch: byte)
    requires UrlState(q.state) && !InPrefix(q.state) && LineEnd(ch) && Room(q, 1)
    ensures var q1 := q.(major := 0, minor := 9, state := if ch == CR then ReqLineAlmostDone else HeaderFieldStart, nread := q.nread + 1);
      Good(q1) && Advance(Live(q, trace, n), ch) == Live(q1, Emit(trace, Data(Url, [])), n + 1)
  {
    hide Arm, Advance, Emit, MethodString, ParseUrlChar, Good;
    var q0 := q.(nread := q.nread + 1);
    UrlArmAt(q0, ch);
    TakesEnd(q, trace, n, ch, q0.(major := 0, minor := 9, state := if ch == CR then ReqLineAlmostDone else HeaderFieldStart), Url);
  }

  // ---- Requests --------------------------------------------------------------------------------

  predicate LegalRequest(r: Request) {
    && LegalTarget(r.meth, r.target) && LegalProtocol(r) && LegalSpacing(r.spacing)
    && AllAcceptable(r.headers, false)
    && !(Any(r.headers, Chunks) && Any(r.headers, Sizes))
  }

  function LineWire(r: Request): seq<byte>
    requires r.major <= 9 && r.minor <= 9
  {
    MethodWire(r) + BehindMethodWire(r)
  }

  /** The target, the version if there is one, and the end of the line. */
  function BehindMethodWire(r: Request): seq<byte>
    requires r.major <= 9 && r.minor <= 9
  {
    if r.protocol == Unversioned then r.target + Ending(r.bareLine)
    else TargetWire(r) + VersionWire(r.protocol, r.major, r.minor) + Ending(r.bareLine)
  }

  function MethodWire(r: Request): seq<byte> {
    r.spacing.before + (Ascii(MethodString(r.meth)) + [SP]) + r.spacing.first
  }

  function TargetWire(r: Request): seq<byte> {
    r.target + [SP] + r.spacing.second
  }

  /** The request up to and including its blank line. */
  function Wire(r: Request): seq<byte>
    requires r.major <= 9 && r.minor <= 9
  {
    LineWire(r) + Lines(r.headers) + Ending(r.bareEnd)
  }

  function LineTrace(trace: seq<Event>, r: Request): seq<Event> {
    Emit(Emit(trace, MessageBegin), Data(Url, r.target))
  }

  /** The parser behind the request line. */
  function BehindLine(q: Parser, r: Request): Parser
    requires r.major <= 9 && r.minor <= 9
  {
    BehindMethod(q, r.meth).(state := HeaderFieldStart, major := r.major, minor := r.minor, nread := q.nread + |LineWire(r)|)
  }

  lemma RequestLineRead(q: GoodParser, trace: seq<Event>, n: nat, r: Request)
    requires q.state == StartReq && LegalTarget(r.meth, r.target) && LegalProtocol(r) && LegalSpacing(r.spacing)
    requires Room(q, |LineWire(r)|)
    ensures Good(BehindLine(q, r))
    ensures Over(Live(q, trace, n), LineWire(r)) == Live(BehindLine(q, r), LineTrace(trace, r), n + |LineWire(r)|)
  {
    hide Emit, MethodString, Good, LegalTarget, Over, LegalSpacing, MethodWire, BehindMethodWire;
    var start := Live(q, trace, n);
    MethodAndSpace(q, trace, n, r);
    var r1 := Over(start, MethodWire(r));
    OverAppend(start, MethodWire(r), BehindMethodWire(r));
    BehindMethodOver(r1.q, r1.trace, r1.n, r);
  }

  lemma BehindMethodOver(q: GoodParser, trace: seq<Event>, n: nat, r: Request)
    requires q.state == ReqSpacesBeforeUrl && q.meth == r.meth && LegalTarget(r.meth, r.target) && LegalProtocol(r)
    requires LegalSpacing(r.spacing) && Room(q, |BehindMethodWire(r)|)
    ensures var k := |BehindMethodWire(r)|;
      var q1 := q.(state := HeaderFieldStart, major := r.major, minor := r.minor, nread := q.nread + k);
      Good(q1) && Over(Live(q, trace, n), BehindMethodWire(r)) == Live(q1, Emit(trace, Data(Url, r.target)), n + k)
  {
    hide Emit, Good, LegalTarget, VersionWire, Ending, Over, LegalSpacing, TargetWire;
    if r.protocol == Unversioned {
      TargetEndsLine(q, trace, n, r.target, r.bareLine);
    } else {
      var start := Live(q, trace, n);
      TargetAndSpace(q, trace, n, r);
      var r2 := Over(start, TargetWire(r));
      OverAppend(start, TargetWire(r), VersionWire(r.protocol, r.major, r.minor));
      VersionOver(r2.q, r2.trace, r2.n, r.protocol, r.major, r.minor);
      var r3 := Over(r2, VersionWire(r.protocol, r.major, r.minor));
      OverAppend(start, TargetWire(r) + VersionWire(r.protocol, r.major, r.minor), Ending(r.bareLine));
      RequestLineEnds(r3.q, r3.trace, r3.n, r.bareLine);
    }
  }

  lemma VersionOver(q: GoodParser, trace: seq<Event>, n: nat, p: Protocol, major: nat, minor: nat)
    requires q.state == ReqHttpStart && major <= 9 && minor <= 9 && (p == Http || q.meth == SOURCE) && Room(q, VersionSize(p))
    ensures var k := VersionSize(p); var q1 := q.(state := ReqHttpEnd, major := major, minor := minor, nread := q.nread + k);
      Good(q1) && Over(Live(q, trace, n), VersionWire(p, major, minor)) == Live(q1, trace, n + k)
  {
    hide Good, VersionWire, Upto, Advance;
    VersionRun(q, trace, n, p, major, minor, VersionSize(p));
  }

  /** The bytes that are passed over between the parts of a request line. */
  predicate Passed(s: State, ch: byte) {
    (s == StartReq && LineEnd(ch)) || ((s == ReqSpacesBeforeUrl || s == ReqHttpStart) && ch == SP)
  }

  lemma PassedArm(q: Parser, ch: byte)
    requires Passed(q.state, ch)
    ensures Arm(q, ch) == Next(q, NoMark, [])
  {}

  lemma {:induction false} PassedOver(q: GoodParser, trace: seq<Event>, n: nat, s: seq<byte>)
    requires Room(q, |s|) && forall i :: 0 <= i < |s| ==> Passed(q.state, s[i])
    ensures var q1 := q.(nread := q.nread + |s|); Good(q1) && Over(Live(q, trace, n), s) == Live(q1, trace, n + |s|)
    decreases |s|
  {
    hide Arm, Advance, MethodString, Good, Over;
    if s == [] {
      OverNone(Live(q, trace, n));
    } else {
      assert s == [s[0]] + s[1..];
      OverAppend(Live(q, trace, n), [s[0]], s[1..]);
      OverOne(Live(q, trace, n), s[0]);
      var q1 := q.(nread := q.nread + 1);
      PassedArm(q1, s[0]);
      TakesQuietly(q, trace, n, s[0], q1);
      PassedOver(q1, trace, n + 1, s[1..]);
    }
  }

  /** Line ends, the method and the spaces behind it. */
  lemma MethodAndSpace(q: GoodParser, trace: seq<Event>, n: nat, r: Request)
    requires q.state == StartReq && LegalSpacing(r.spacing) && Room(q, |MethodWire(r)|)
    ensures var q1 := BehindMethod(q, r.meth).(nread := q.nread + |MethodWire(r)|);
      && Good(q1)
      && Over(Live(q, trace, n), MethodWire(r)) == Live(q1, Emit(trace, MessageBegin), n + |MethodWire(r)|)
  {
    hide Emit, MethodString, Good, Over;
    var start, w, s := Live(q, trace, n), Ascii(MethodString(r.meth)) + [SP], r.spacing;
    OverAppend(start, s.before + w, s.first);
    OverAppend(start, s.before, w);
    PassedOver(q, trace, n, s.before);
    var r1 := Over(start, s.before);
    MethodFits(r.meth);
    MethodExact(r1.q, trace, r1.n, Ascii(MethodString(r.meth)), r.meth);
    var r2 := Over(r1, w);
    PassedOver(r2.q, r2.trace, r2.n, s.first);
  }

  /** The target and the spaces behind it. */
  lemma TargetAndSpace(q: GoodParser, trace: seq<Event>, n: nat, r: Request)
    requires q.state == ReqSpacesBeforeUrl && q.meth == r.meth && LegalTarget(r.meth, r.target) && LegalSpacing(r.spacing)
    requires Room(q, |TargetWire(r)|)
    ensures var q1 := q.(state := ReqHttpStart, nread := q.nread + |TargetWire(r)|);
      && Good(q1)
      && Over(Live(q, trace, n), TargetWire(r)) == Live(q1, Emit(trace, Data(Url, r.target)), n + |TargetWire(r)|)
  {
    hide Emit, LegalTarget, Good, Over;
    OverAppend(Live(q, trace, n), r.target + [SP], r.spacing.second);
    TargetRead(q, trace, n, r.target);
    var r1 := Over(Live(q, trace, n), r.target + [SP]);
    PassedOver(r1.q, r1.trace, r1.n, r.spacing.second);
  }

  lemma MethodFits(m: Method)
    ensures var w := Ascii(MethodString(m)); w != [] && w[0] != CR && w[0] != LF && SP !in w
  {
    hide MethodString, Tracked, FirstMethod;
    MethodBytesAscii(m);
    TrackEnds(m);
  }

  /** What is known of the parser behind the headers of a request. */
  ghost predicate HeadRead(q: Parser, q1: Parser, r: Request)
    requires r.major <= 9 && r.minor <= 9
  {
    && q1.state == HeaderFieldStart && q1.meth == r.meth && q1.major == r.major && q1.minor == r.minor
    && BlockFlags(NO_FLAGS, q1.flags, r.headers) && q1.contentLength == SizeOf(r.headers, ULLONG_MAX)
    && q1.nread == q.nread + |LineWire(r)| + |Lines(r.headers)|
  }

  /** The request line and the headers. */
  lemma BlockBefore(q: GoodParser, trace: seq<Event>, n: nat, r: Request) returns (r2: Run)
    requires q.state == StartReq && LegalRequest(r) && Room(q, |Wire(r)|)
    ensures r2 == Over(Live(q, trace, n), LineWire(r) + Lines(r.headers))
    ensures var k := |LineWire(r)| + |Lines(r.headers)|;
      && Settled(r2).Live? && HeadRead(q, Settled(r2).q, r) && Settled(r2).n == n + k
      && Settled(r2).trace == HeaderTrace(LineTrace(trace, r), r.headers)
  {
    hide Emit, MethodString, Good, BlockFlags, LegalTarget, AllAcceptable, LineWire, Settled, Over, HeaderTrace, LineTrace;
    var start := Live(q, trace, n);
    RequestLineRead(q, trace, n, r);
    var r1 := Over(start, LineWire(r));
    OverAppend(start, LineWire(r), Lines(r.headers));
    HeaderBlock(r1.q, r1.trace, r1.n, r.headers);
    r2 := Over(r1, Lines(r.headers));
  }

  lemma NotRefused(q: Parser, q1: Parser, r: Request)
    requires LegalRequest(r) && HeadRead(q, q1, r)
    ensures q1.state == HeaderFieldStart && !q1.flags.trailing && !(q1.flags.chunked && q1.flags.contentLength)
    ensures q1.nread == q.nread + |LineWire(r)| + |Lines(r.headers)|
  {
    hide Any, LineWire, Lines, LegalTarget, AllAcceptable, MethodString;
    HeadFlags(q1.flags, r.headers);
  }

  /** A request comes to what its blank line comes to behind its headers. */
  lemma RequestRead(q: GoodParser, trace: seq<Event>, n: nat, r: Request) returns (q1: GoodParser)
    requires q.state == StartReq && LegalRequest(r) && Room(q, |Wire(r)|)
    ensures HeadRead(q, q1, r)
    ensures match BlankLine(q1, HeaderTrace(LineTrace(trace, r), r.headers))
      case None => false
      case Some((q2, t, live)) =>
        && Good(q2)
        && Over(Live(q, trace, n), Wire(r)) == if live then Live(q2, t, n + |Wire(r)|) else Left(q2, t, n + |Wire(r)|)
  {
    hide Emit, MethodString, Good, BlockFlags, LegalTarget, AllAcceptable, LineWire, Settled, AsksForUpgrade, HasBody, Over;
    hide HeadRead;
    var start := Live(q, trace, n);
    var r2 := BlockBefore(q, trace, n, r);
    OverAppend(start, LineWire(r) + Lines(r.headers), Ending(r.bareEnd));
    SettledOver(r2, Ending(r.bareEnd));
    q1 := Settled(r2).q;
    NotRefused(q, q1, r);
    BlankLineRead(q1, Settled(r2).trace, Settled(r2).n, r.bareEnd);
  }

  lemma HeadFlags(f: Flags, hs: seq<Header>)
    requires BlockFlags(NO_FLAGS, f, hs)
    ensures !f.trailing && (f.chunked <==> Any(hs, Chunks)) && (f.contentLength <==> Any(hs, Sizes))
    ensures f.upgrade <==> Any(hs, Upgrades)
    ensures f.connectionUpgrade <==> Any(hs, AsksUpgrade)
  {}

  // ---- What the callbacks deliver --------------------------------------------------------------

  /** A request as its callbacks tell it: the URL, the header pairs and what is known when the headers are complete. */
  datatype Delivery = Delivery(
    url: seq<byte>, headers: seq<(seq<byte>, seq<byte>)>, head: Option<(Method, nat, nat, bool, Sizing)>)

  function Deliver(d: Delivery, e: Event): Delivery {
    match e
    case MessageBegin => Delivery([], [], None)
    case Data(Url, bytes) => d.(url := d.url + bytes)
    case Data(Field, bytes) => d.(headers := d.headers + [(bytes, [])])
    case Data(Value, bytes) =>
      if d.headers == [] then d
      else d.(headers := d.headers[..|d.headers| - 1] + [(d.headers[|d.headers| - 1].0, bytes)])
    case HeadersComplete(m, major, minor, upgrade, sizing) => d.(head := Some((m, major, minor, upgrade, sizing)))
    case _ => d
  }

  function Delivered(trace: seq<Event>): Delivery {
    if trace == [] then Delivery([], [], None) else Deliver(Delivered(trace[..|trace| - 1]), trace[|trace| - 1])
  }

  /** The event would not be glued to the last one. */
  predicate Apart(trace: seq<Event>, e: Event) {
    e.Data? && trace != [] ==> !(trace[|trace| - 1].Data? && trace[|trace| - 1].kind == e.kind)
  }

  lemma DeliveredEmit(trace: seq<Event>, e: Event)
    requires Apart(trace, e)
    ensures Delivered(Emit(trace, e)) == Deliver(Delivered(trace), e) && Emit(trace, e) == trace + [e]
  {
    assert (trace + [e])[..|trace|] == trace;
  }

  function Pairs(hs: seq<Header>): seq<(seq<byte>, seq<byte>)> {
    if hs == [] then [] else Pairs(hs[..|hs| - 1]) + [(hs[|hs| - 1].name, ValueOf(hs[|hs| - 1]))]
  }

  lemma {:induction false} HeadersDelivered(trace: seq<Event>, hs: seq<Header>)
    requires Apart(trace, Data(Field, [])) && Delivered(trace).headers == []
    ensures var t := HeaderTrace(trace, hs);
      Apart(t, Data(Field, [])) && Delivered(t) == Delivered(trace).(headers := Pairs(hs))
  {
    hide Delivered;
    if hs != [] {
      var h := hs[|hs| - 1];
      var before := hs[..|hs| - 1];
      HeadersDelivered(trace, before);
      var t := HeaderTrace(trace, before);
      DeliveredEmit(t, Data(Field, h.name));
      DeliveredEmit(t + [Data(Field, h.name)], Data(Value, ValueOf(h)));
      assert (Pairs(before) + [(h.name, [])])[..|Pairs(before)|] == Pairs(before);
    }
  }

  lemma LineDelivered(trace: seq<Event>, r: Request)
    ensures var t := LineTrace(trace, r);
      Apart(t, Data(Field, [])) && Delivered(t) == Delivery(r.target, [], None)
  {
    DeliveredEmit(trace, MessageBegin);
    DeliveredEmit(trace + [MessageBegin], Data(Url, r.target));
    assert [] + r.target == r.target;
  }

  /** Whether the parser takes the request for one that switches protocols, by its method or its headers. */
  predicate Switches(r: Request) {
    r.meth == CONNECT || (Any(r.headers, Upgrades) && Any(r.headers, AsksUpgrade))
  }

  /** What the headers of a request say of its body. */
  function SizingTold(r: Request): Sizing {
    SizingOf(Any(r.headers, Chunks), SizeOf(r.headers, ULLONG_MAX))
  }

  /** What `on_headers_complete` is told of a request. */
  function HeadersTold(r: Request): (e: Event) {
    HeadersComplete(r.meth, r.major, r.minor, Switches(r), SizingTold(r))
  }

  /** The callbacks of a request, read back, are the request. */
  lemma RequestDelivered(q1: Parser, r: Request)
    ensures var t, e := Emit(HeaderTrace(LineTrace([], r), r.headers), HeadersEvent(q1)), HeadersEvent(q1);
      var d := Delivery(r.target, Pairs(r.headers), Some((e.meth, e.major, e.minor, e.upgrade, e.sizing)));
      Delivered(t) == d && Delivered(Emit(t, MessageComplete)) == d
  {
    hide Delivered, Emit, AsksForUpgrade;
    LineDelivered([], r);
    HeadersDelivered(LineTrace([], r), r.headers);
    var t := HeaderTrace(LineTrace([], r), r.headers);
    DeliveredEmit(t, HeadersEvent(q1));
    DeliveredEmit(Emit(t, HeadersEvent(q1)), MessageComplete);
  }

  /**
    The round trip: a request that was written, cut into pieces in any way, is delivered as it was:
    method, target, version and all headers in order; and whether another protocol follows is told as
    its Upgrade and Connection headers say.
  */
  lemma RequestRoundTrip(r: Request, pieces: seq<seq<byte>>)
    requires LegalRequest(r) && |Wire(r)| <= MAX_HEADER_SIZE && Concat(pieces) == Wire(r)
    ensures Good(INITIAL)
    ensures var run := OverPieces(Live(INITIAL, [], 0), pieces);
      && !run.Failed? && run.n == |Wire(r)|
      && Delivered(run.trace) == Delivery(r.target, Pairs(r.headers), Some((r.meth, r.major, r.minor, Switches(r), SizingTold(r))))
      && (run.q.upgrade <==> Switches(r))
  {
    hide Over, OverPieces, Good, LegalRequest, Wire, Delivered, Switches, SizingTold, Pairs;
    InitialIsGood();
    PiecesLikeWhole(Live(INITIAL, [], 0), pieces);
    WholeDelivered(r);
  }

  /** A request in one piece. */
  lemma WholeDelivered(r: Request)
    requires LegalRequest(r) && |Wire(r)| <= MAX_HEADER_SIZE
    ensures Good(INITIAL)
    ensures var run := Over(Live(INITIAL, [], 0), Wire(r));
      && !run.Failed? && run.n == |Wire(r)|
      && Delivered(run.trace) == Delivery(r.target, Pairs(r.headers), Some((r.meth, r.major, r.minor, Switches(r), SizingTold(r))))
      && (run.q.upgrade <==> Switches(r))
  {
    hide Advance, MethodString, Good, BlockFlags, LegalTarget, AllAcceptable, LineWire, Delivered, Emit, Any, Pairs, HeadersEvent,
      HeaderTrace, LineTrace, Over, LegalSpacing, BlankLine, AsksForUpgrade, SizeOf, SizingOf;
    InitialIsGood();
    var q1 := RequestRead(INITIAL, [], 0, r);
    RequestTold(q1, r);
    RequestDelivered(q1, r);
    BlankLineTold(q1, HeaderTrace(LineTrace([], r), r.headers));
  }

  /** What is known of a request behind its headers is what it says. */
  lemma RequestTold(q1: Parser, r: Request)
    requires r.major <= 9 && r.minor <= 9 && HeadRead(INITIAL, q1, r)
    ensures HeadersEvent(q1) == HeadersTold(r) && AsksForUpgrade(q1) == Switches(r)
  {
    hide BlockFlags, Any, SizeOf;
    HeadFlags(q1.flags, r.headers);
  }

  /** Whatever the blank line leads to, the headers were reported, and the message may have been completed. */
  lemma BlankLineTold(q: Parser, trace: seq<Event>)
    ensures match BlankLine(q, trace)
      case None => true
      case Some((q1, t, _)) =>
        var told := Emit(trace, HeadersEvent(q));
        q1.upgrade == AsksForUpgrade(q) && (t == told || t == Emit(told, MessageComplete))
  {
    hide Emit, HeadersEvent, NewMessage;
  }
}
