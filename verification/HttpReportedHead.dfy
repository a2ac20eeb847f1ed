/** The way back, fourth part: a head that is reported complete is the wire form of a legal request. */
module HttpReportedHead {
  import opened Bytes
  import opened HttpTypes
  import opened HttpStep
  import opened HttpRun
  import opened HttpFeed
  import opened HttpNames
  import opened HttpHeaders
  import opened HttpFolding
  import opened HttpHead
  import opened HttpRequest
  import opened HttpReported
  import opened HttpReportedLine
  import opened HttpReportedHeader

  // ---- One header ------------------------------------------------------------------------------

  /** What a header line comes to is a header that can be taken, and the next line does not continue it. */
  predicate HeaderUpTo(h: Header, s: seq<byte>, sized: bool) {
    Acceptable(h, sized) && Line(h) < s && !Blank(s[|Line(h)|])
  }

  /** The lines of a header, behind its name and the white space. */
  predicate ValueUpTo(sizing: bool, sized: bool, first: seq<byte>, bare: bool, cs: seq<Fold>, s: seq<byte>) {
    && (if sizing then LegalLength(first) && !sized else LegalValue(first)) && (cs != [] ==> first != [])
    && first + Ending(bare) <= s && FoldsUpTo(cs, s[|first + Ending(bare)|..], sizing)
  }

  lemma LengthUpTo(q: GoodParser, trace: seq<Event>, n: nat, s: seq<byte>, k: nat)
      returns (first: seq<byte>, bare: bool, cs: seq<Fold>)
    requires q.state == HeaderValueDiscardWs && q.headerState == ContentLength
    requires Room(q, |s|) && Reports(trace) == k && Reported(Over(Live(q, trace, n), s), k)
    requires s != [] && !Blank(s[0]) && !LineEnd(s[0])
    ensures ValueUpTo(true, q.flags.contentLength, first, bare, cs, s)
  {
    hide Good, Over, Emit, Reported, LegalLength, FoldsUpTo, Ending, SizeIn;
    first := LengthFirstly(q, trace, n, s, k);
    var i := |first|;
    assert s == first + s[i..];
    PartTaken(Live(q, trace, n), first, s[i..], k);
    LengthOver(q, trace, n, first);
    var r := Over(Live(q, trace, n), first);
    bare := ValueLineEnds(r.q, trace, r.n, first, s[i..], k);
    var e := Ending(bare);
    assert s[i..][|e|..] == s[|first + e|..];
    cs := FoldsFirstly(r.q.(nread := r.q.nread + |e|, state := HeaderValueLws), trace, r.n + |e|, first, s[|first + e|..], true, k);
    LengthsNotEmpty(first);
  }

  lemma LengthsNotEmpty(v: seq<byte>)
    requires LegalLength(v)
    ensures v != []
  {}

  lemma TextUpTo(q: GoodParser, trace: seq<Event>, n: nat, s: seq<byte>, k: nat)
      returns (first: seq<byte>, bare: bool, cs: seq<Fold>)
    requires q.state == HeaderValueDiscardWs && ClassOf(q.headerState) != Sizing
    requires Room(q, |s|) && Reports(trace) == k && Reported(Over(Live(q, trace, n), s), k)
    requires s != [] && !Blank(s[0]) && !LineEnd(s[0])
    ensures ValueUpTo(false, q.flags.contentLength, first, bare, cs, s)
  {
    hide Good, Over, Emit, Reported, LegalValue, FoldsUpTo, Ending, ValueTracked, Running;
    first := ValueFirstly(q, trace, n, s, k);
    var i := |first|;
    assert s == first + s[i..];
    PartTaken(Live(q, trace, n), first, s[i..], k);
    ValueOver(q, trace, n, first);
    var r := Over(Live(q, trace, n), first);
    TrackedRuns(ClassOf(q.headerState), q.flags, r.q, first);
    bare := ValueLineEnds(r.q, trace, r.n, first, s[i..], k);
    var e := Ending(bare);
    assert s[i..][|e|..] == s[|first + e|..];
    cs := FoldsFirstly(r.q.(nread := r.q.nread + |e|, state := HeaderValueLws), trace, r.n + |e|, first, s[|first + e|..], false, k);
  }

  /** An empty value: no other line continues it, and it is not that of a length. */
  lemma EmptyUpTo(q: GoodParser, trace: seq<Event>, n: nat, s: seq<byte>, k: nat) returns (bare: bool)
    requires q.state == HeaderValueDiscardWs && Room(q, |s|) && Reports(trace) == k && Reported(Over(Live(q, trace, n), s), k)
    requires s != [] && LineEnd(s[0]) && EmptyValue(s)
    ensures ClassOf(q.headerState) != Sizing && ValueUpTo(false, q.flags.contentLength, [], bare, [], s)
  {
    hide Advance, Good, Over, Emit, Reported, MethodString, Arm;
    bare := EmptyLineEnds(q, trace, n, s, k);
    var e := Ending(bare);
    assert !Blank(s[|e|]);
    var q1, rest := q.(nread := q.nread + |e|, state := HeaderValueDiscardLws), s[|e|..];
    Peel(q1, trace, n + |e|, rest, k);
    var q0 := q1.(nread := q1.nread + 1);
    ValueEdgeArmAt(q0, rest[0]);
    if ClassOf(q.headerState) == Sizing {
      ClassSizing(q.headerState);
      Refuses(q1, trace, n + |e|, rest[0]);
    }
    assert [] + e == e;
    NoFolds(rest, false);
  }

  lemma OneHeader(q: GoodParser, trace: seq<Event>, n: nat, s: seq<byte>, k: nat) returns (h: Header)
    requires q.state == HeaderFieldStart && Room(q, |s|) && Reports(trace) == k && Reported(Over(Live(q, trace, n), s), k)
    requires s != [] && !LineEnd(s[0])
    ensures HeaderUpTo(h, s, q.flags.contentLength)
  {
    hide Good, Over, Reported, ValueUpTo, HeaderUpTo, EmptyValue, IsToken, LegalSpace, NameAfter;
    var name, q1, t1 := NameFirstly(q, trace, n, s, k);
    var i := |name| + 1;
    var s1 := s[i..];
    var space := SpaceFirst(q1, t1, n + i, s1, k);
    var s2 := s1[|space|..];
    assert s1 == space + s2 && s2[0] == s1[|space|];
    PartTaken(Live(q1, t1, n + i), space, s2, k);
    SpaceOver(q1, t1, n + i, space);
    var q2 := q1.(nread := q1.nread + |space|);
    var n2 := n + i + |space|;
    var first, bare, cs := [], false, [];
    ClassSizing(q1.headerState);
    if LineEnd(s2[0]) {
      bare := EmptyUpTo(q2, t1, n2, s2, k);
    } else if q2.headerState == ContentLength {
      first, bare, cs := LengthUpTo(q2, t1, n2, s2, k);
    } else {
      first, bare, cs := TextUpTo(q2, t1, n2, s2, k);
    }
    h := Header(name, space, first, bare, cs);
    assert s == name + [COLON] + (space + s2);
    HeaderPut(h, s, s2, q.flags.contentLength);
  }

  lemma HeaderPut(h: Header, s: seq<byte>, s2: seq<byte>, sized: bool)
    requires h.name != [] && IsToken(h.name) && LegalSpace(h.space) && s == h.name + [COLON] + (h.space + s2)
    requires ValueUpTo(ClassOfName(h.name) == Sizing, sized, h.first, h.bare, h.folds, s2)
    ensures HeaderUpTo(h, s, sized)
  {
    hide IsToken, LegalSpace, ClassOfName, LegalLength, LegalValue, Ending, LegalFold, Line;
    HeaderWritten(h, s, s2);
  }

  lemma HeaderWritten(h: Header, s: seq<byte>, s2: seq<byte>)
    requires s == h.name + [COLON] + (h.space + s2) && h.first + Ending(h.bare) <= s2
    requires var w := AllWritten(h.folds); var rest := s2[|h.first + Ending(h.bare)|..]; w < rest && !Blank(rest[|w|])
    ensures Line(h) < s && !Blank(s[|Line(h)|])
  {
    hide Ending, Blank;
    var a, b, w := h.name + [COLON] + h.space, h.first + Ending(h.bare), AllWritten(h.folds);
    var rest := s2[|b|..];
    FourParts(a, b, w, rest, s, s2);
    assert Line(h) == a + b + w;
  }

  lemma FourParts(a: seq<byte>, b: seq<byte>, w: seq<byte>, rest: seq<byte>, s: seq<byte>, s2: seq<byte>)
    requires s == a + s2 && b <= s2 && rest == s2[|b|..] && w < rest
    ensures a + b + w < s && s[|a + b + w|] == rest[|w|]
  {
    assert s2 == b + (w + rest[|w|..]);
    assert s == a + b + w + rest[|w|..];
  }

  // ---- All headers -----------------------------------------------------------------------------

  lemma AnyCons(h: Header, hs: seq<Header>, p: Header -> bool)
    ensures Any([h] + hs, p) <==> p(h) || Any(hs, p)
  {
    assert ([h] + hs)[0] == h && forall i :: 0 <= i < |hs| ==> ([h] + hs)[i + 1] == hs[i];
  }

  lemma {:induction false} AcceptableCons(h: Header, hs: seq<Header>, sized: bool)
    requires Acceptable(h, sized) && AllAcceptable(hs, sized || Sizes(h))
    ensures AllAcceptable([h] + hs, sized)
  {
    hide Acceptable, Sizes, Any;
    if hs == [] {
      assert ([h] + hs)[..0] == [] && !Any([], Sizes) by {
        NoneAny(Sizes);
      }
    } else {
      var before, last := hs[..|hs| - 1], hs[|hs| - 1];
      AcceptableCons(h, before, sized);
      AnyCons(h, before, Sizes);
      assert ([h] + hs)[..|hs|] == [h] + before && ([h] + hs)[|hs|] == last;
    }
  }

  lemma NoneAny(p: Header -> bool)
    ensures !Any([], p)
  {}

  /** Headers as far as they go, and the blank line behind them. */
  predicate BlockUpTo(hs: seq<Header>, bare: bool, s: seq<byte>, sized: bool) {
    AllAcceptable(hs, sized) && Lines(hs) + Ending(bare) <= s
  }

  /** What is known behind one header. */
  lemma BehindHeader(q: GoodParser, trace: seq<Event>, n: nat, h: Header, s: seq<byte>, k: nat) returns (q1: GoodParser, t1: seq<Event>)
    requires q.state == HeaderFieldStart && Room(q, |s|) && Reports(trace) == k && Reported(Over(Live(q, trace, n), s), k)
    requires HeaderUpTo(h, s, q.flags.contentLength)
    ensures Line(h) < s && q1.state == HeaderFieldStart && q1.nread == q.nread + |Line(h)| && Reports(t1) == k
    ensures q1.flags.contentLength <==> q.flags.contentLength || Sizes(h)
    ensures Reported(Over(Live(q1, t1, n + |Line(h)|), s[|Line(h)|..]), k)
  {
    hide Good, Over, Emit, Reported, Acceptable, Line, Settled, LineFlags;
    var w, rest := Line(h), s[|Line(h)|..];
    assert s == w + rest && rest[0] == s[|w|];
    PartTaken(Live(q, trace, n), w, rest, k);
    HeaderLine(q, trace, n, h);
    SettledOver(Over(Live(q, trace, n), w), rest);
    var r := Settled(Over(Live(q, trace, n), w));
    HeaderAdds(q.flags, r.q.flags, h);
    ReportsEmit(trace, Data(Field, h.name));
    ReportsEmit(Emit(trace, Data(Field, h.name)), Data(Value, ValueOf(h)));
    q1, t1 := r.q, r.trace;
  }

  lemma {:induction false} HeadersFirst(q: GoodParser, trace: seq<Event>, n: nat, s: seq<byte>, k: nat) returns (hs: seq<Header>, bare: bool)
    requires q.state == HeaderFieldStart && Room(q, |s|) && Reports(trace) == k && Reported(Over(Live(q, trace, n), s), k)
    ensures BlockUpTo(hs, bare, s, q.flags.contentLength)
    decreases |s|
  {
    hide Good, Over, Reported, BlockUpTo, HeaderUpTo, Acceptable, Sizes, Line, Advance;
    Peel(q, trace, n, s, k);
    if LineEnd(s[0]) {
      hs := [];
      bare := BlankFirst(q, trace, n, s, k);
    } else {
      var h := OneHeader(q, trace, n, s, k);
      var q1, t1 := BehindHeader(q, trace, n, h, s, k);
      var more;
      more, bare := HeadersFirst(q1, t1, n + |Line(h)|, s[|Line(h)|..], k);
      hs := [h] + more;
      OneHeaderMore(h, more, bare, s, q.flags.contentLength);
    }
  }

  lemma OneHeaderMore(h: Header, more: seq<Header>, bare: bool, s: seq<byte>, sized: bool)
    requires HeaderUpTo(h, s, sized) && BlockUpTo(more, bare, s[|Line(h)|..], sized || Sizes(h))
    ensures BlockUpTo([h] + more, bare, s, sized)
  {
    hide Acceptable, Sizes, Line, Ending, AllAcceptable, Lines;
    AcceptableCons(h, more, sized);
    LinesCons(h, more);
    var w, rest := Line(h), s[|Line(h)|..];
    assert s == w + rest;
    assert rest == Lines(more) + Ending(bare) + rest[|Lines(more) + Ending(bare)|..];
    assert s == Lines([h] + more) + Ending(bare) + rest[|Lines(more) + Ending(bare)|..];
  }

  /** A blank line: a line feed, or a carriage return that a line feed follows. */
  lemma BlankFirst(q: GoodParser, trace: seq<Event>, n: nat, s: seq<byte>, k: nat) returns (bare: bool)
    requires q.state == HeaderFieldStart && Room(q, |s|) && Reports(trace) == k && Reported(Over(Live(q, trace, n), s), k)
    requires s != [] && LineEnd(s[0])
    ensures BlockUpTo([], bare, s, q.flags.contentLength)
  {
    hide Arm, Advance, Good, Over, Reported, MethodString;
    bare := s[0] == LF;
    if !bare {
      Peel(q, trace, n, s, k);
      var q0 := q.(nread := q.nread + 1);
      FieldStartArmAt(q0, CR);
      TakesQuietly(q, trace, n, CR, q0.(state := HeadersAlmostDone));
      FeedAwaited(q0.(state := HeadersAlmostDone), trace, n + 1, s[1..], k);
    }
    assert [] + Ending(bare) == Ending(bare);
  }

  // ---- Requests --------------------------------------------------------------------------------

  /** The input begins with a legal request that fits into what is left of the budget. */
  ghost predicate BeginsWith(s: seq<byte>, r: Request, q: Parser) {
    LegalRequest(r) && Wire(r) <= s && Room(q, |Wire(r)|)
  }

  /** The request line, the headers and the blank line. */
  lemma AllParts(q: GoodParser, trace: seq<Event>, n: nat, s: seq<byte>, k: nat) returns (r: Request)
    requires q.state == StartReq && Room(q, |s|) && Reports(trace) == k && Reported(Over(Live(q, trace, n), s), k)
    ensures LegalTarget(r.meth, r.target) && LegalProtocol(r) && LegalSpacing(r.spacing) && AllAcceptable(r.headers, false)
    ensures Wire(r) <= s
  {
    hide Good, Over, Reported, LegalTarget, LegalSpacing, AllAcceptable, MethodString, LineWire, Lines, Ending, Emit;
    var r0 := LineFirst(q, trace, n, s, k);
    var w := LineWire(r0);
    var rest := s[|w|..];
    assert s == w + rest;
    PartTaken(Live(q, trace, n), w, rest, k);
    RequestLineRead(q, trace, n, r0);
    ReportsEmit(trace, MessageBegin);
    ReportsEmit(Emit(trace, MessageBegin), Data(Url, r0.target));
    NothingSized(q, r0);
    var hs, bare := HeadersFirst(BehindLine(q, r0), LineTrace(trace, r0), n + |w|, rest, k);
    r := r0.(headers := hs, bareEnd := bare);
    SameLine(r0, r);
    assert Wire(r) == w + (Lines(hs) + Ending(bare));
  }

  lemma NothingSized(q: Parser, r: Request)
    requires r.major <= 9 && r.minor <= 9
    ensures !BehindLine(q, r).flags.contentLength && BehindLine(q, r).state == HeaderFieldStart
    ensures BehindLine(q, r).nread == q.nread + |LineWire(r)|
  {
    hide LineWire, MethodString;
  }

  lemma SameLine(r: Request, r1: Request)
    requires r1 == r.(headers := r1.headers, bareEnd := r1.bareEnd) && r.major <= 9 && r.minor <= 9
    ensures LineWire(r1) == LineWire(r)
  {}

  /** Chunks and a Content-Length together are refused at the blank line. */
  lemma NotBoth(q: GoodParser, trace: seq<Event>, n: nat, r: Request)
    requires q.state == StartReq && LegalTarget(r.meth, r.target) && LegalProtocol(r) && LegalSpacing(r.spacing)
    requires AllAcceptable(r.headers, false) && Room(q, |Wire(r)|) && Over(Live(q, trace, n), Wire(r)) != Failed
    ensures !(Any(r.headers, Chunks) && Any(r.headers, Sizes))
  {
    hide Good, Over, LegalTarget, LegalSpacing, AllAcceptable, MethodString, LineWire, Lines, Emit, Any, Settled, HeadersEvent,
      IntoBody, BlockFlags;
    var start, w, e := Live(q, trace, n), LineWire(r), Ending(r.bareEnd);
    RequestLineRead(q, trace, n, r);
    NothingSized(q, r);
    OverAppend(start, w, Lines(r.headers));
    var r1 := Over(start, w);
    HeaderBlock(r1.q, r1.trace, r1.n, r.headers);
    OverAppend(start, w + Lines(r.headers), e);
    var r2 := Over(start, w + Lines(r.headers));
    SettledOver(r2, e);
    NoFlagsYet(q, r);
    HeadFlags(Settled(r2).q.flags, r.headers);
    BlankLineRead(Settled(r2).q, Settled(r2).trace, Settled(r2).n, r.bareEnd);
  }

  lemma NoFlagsYet(q: Parser, r: Request)
    requires r.major <= 9 && r.minor <= 9
    ensures BehindLine(q, r).flags == NO_FLAGS
  {
    hide LineWire, MethodString;
  }

  /** Whatever head the parser reports complete is the wire form of a legal request. */
  lemma ReportedIsRequest(q: GoodParser, trace: seq<Event>, n: nat, s: seq<byte>) returns (r: Request)
    requires q.state == StartReq && Reported(Over(Live(q, trace, n), s), Reports(trace))
    ensures BeginsWith(s, r, q)
  {
    hide Good, Over, LegalTarget, LegalSpacing, AllAcceptable, MethodString, Any, Wire;
    var k, start := Reports(trace), Live(q, trace, n);
    Fits(q, trace, n, s, k);
    var j :| 0 <= j <= |s| && Room(q, j) && Reported(Over(start, s[..j]), k);
    r := AllParts(q, trace, n, s[..j], k);
    var w := Wire(r);
    assert s[..j] == w + s[..j][|w|..];
    PartTaken(start, w, s[..j][|w|..], k);
    NotBoth(q, trace, n, r);
  }
}
