/** The way back, third part: a head that is reported complete goes on with headers and ends with a blank line. */
module HttpReportedHeader {
  import opened Bytes
  import opened HttpTypes
  import opened HttpStep
  import opened HttpRun
  import opened HttpFeed
  import opened HttpNames
  import opened HttpLengths
  import opened HttpTokens
  import opened HttpHeaders
  import opened HttpFolding
  import opened HttpReported
  import opened HttpReportedLine

  // ---- The name --------------------------------------------------------------------------------

  lemma NameBegins(q: GoodParser, trace: seq<Event>, n: nat, b: byte)
    requires q.state == HeaderFieldStart && Room(q, 1) && !LineEnd(b) && Advance(Live(q, trace, n), b) != Failed
    ensures TokenOf(b) != 0
  {
    hide Arm, Advance, Good, MethodString, TokenOf;
    FieldStartArmAt(q.(nread := q.nread + 1), b);
    if TokenOf(b) == 0 {
      Refuses(q, trace, n, b);
    }
  }

  lemma ColonFollows(q: GoodParser, trace: seq<Event>, n: nat, b: byte)
    requires q.state == HeaderField && Room(q, 1) && TokenOf(b) == 0 && Advance(Live(q, trace, n), b) != Failed
    ensures b == COLON
  {
    hide Arm, Advance, Good, MethodString, TokenOf;
    FieldArmAt(q.(nread := q.nread + 1), b);
    if b != COLON {
      Refuses(q, trace, n, b);
    }
  }

  /** A line that is not blank begins with a name and a colon. */
  lemma NameFirstly(q: GoodParser, trace: seq<Event>, n: nat, s: seq<byte>, k: nat)
      returns (name: seq<byte>, q1: GoodParser, t1: seq<Event>)
    requires q.state == HeaderFieldStart && Room(q, |s|) && Reports(trace) == k && Reported(Over(Live(q, trace, n), s), k)
    requires s != [] && !LineEnd(s[0])
    ensures name != [] && IsToken(name) && name + [COLON] <= s
    ensures BehindName(q, q1, name) && Reports(t1) == k && Reported(Over(Live(q1, t1, n + |name| + 1), s[|name| + 1..]), k)
  {
    hide Advance, Good, Over, Emit, BehindName, IsToken, Reported;
    name := TokenFirst(q, trace, n, s, k);
    var w, rest := name + [COLON], s[|name| + 1..];
    assert s == w + rest;
    PartTaken(Live(q, trace, n), w, rest, k);
    NameRead(q, trace, n, name);
    ReportsEmit(trace, Data(Field, name));
    q1, t1 := Over(Live(q, trace, n), w).q, Emit(trace, Data(Field, name));
  }

  lemma TokenFirst(q: GoodParser, trace: seq<Event>, n: nat, s: seq<byte>, k: nat) returns (name: seq<byte>)
    requires q.state == HeaderFieldStart && Room(q, |s|) && Reports(trace) == k && Reported(Over(Live(q, trace, n), s), k)
    requires s != [] && !LineEnd(s[0])
    ensures name != [] && IsToken(name) && name + [COLON] <= s
  {
    hide Advance, Good, Over, Emit, NameTracked, TokenOf, Reported;
    var start, i := Live(q, trace, n), Find(s, (b: byte) => TokenOf(b) == 0);
    Peel(q, trace, n, s, k);
    NameBegins(q, trace, n, s[0]);
    name := s[..i];
    assert s == name + s[i..] && name[..i] == name;
    PartTaken(start, name, s[i..], k);
    NameOver(q, trace, n, name);
    ReportsEmit(trace, Data(Field, name));
    var r := Over(start, name);
    Peel(r.q, r.trace, r.n, s[i..], k);
    ColonFollows(r.q, r.trace, r.n, s[i]);
  }

  lemma NameOver(q: GoodParser, trace: seq<Event>, n: nat, w: seq<byte>)
    requires q.state == HeaderFieldStart && w != [] && IsToken(w) && Room(q, |w|)
    ensures w[..|w|] == w && InName(q, Over(Live(q, trace, n), w), trace, n, w, |w|)
  {
    hide Advance, Good, InName;
    assert w[..|w|] == w;
    NameRun(q, trace, n, w, |w|);
  }

  // ---- White space and empty values ------------------------------------------------------------

  /** States that a line feed must follow. */
  predicate AwaitsFeed(s: State) {
    s == HeaderValueDiscardWsAlmostDone || s == HeaderAlmostDone || s == HeadersAlmostDone
  }

  lemma FeedAwaited(q: GoodParser, trace: seq<Event>, n: nat, s: seq<byte>, k: nat)
    requires AwaitsFeed(q.state) && Reports(trace) <= k && Reported(Over(Live(q, trace, n), s), k)
    ensures s != [] && s[0] == LF
  {
    hide Arm, Advance, Good, MethodString, Over, Reported;
    Peel(q, trace, n, s, k);
    if s[0] != LF {
      AwaitsArm(q.(nread := q.nread + 1), s[0]);
      Refuses(q, trace, n, s[0]);
    }
  }

  lemma AwaitsArm(q: Parser, ch: byte)
    requires AwaitsFeed(q.state) && ch != LF
    ensures Arm(q, ch).Bad?
  {}

  /** Behind a carriage return where a value could begin there is a line feed. */
  lemma EmptyLineEnds(q: GoodParser, trace: seq<Event>, n: nat, s: seq<byte>, k: nat) returns (bare: bool)
    requires q.state == HeaderValueDiscardWs && Room(q, |s|) && Reports(trace) == k && Reported(Over(Live(q, trace, n), s), k)
    requires s != [] && LineEnd(s[0])
    ensures bare == (s[0] == LF) && Ending(bare) < s
    ensures var q1 := q.(nread := q.nread + |Ending(bare)|, state := HeaderValueDiscardLws);
      Good(q1) && Reported(Over(Live(q1, trace, n + |Ending(bare)|), s[|Ending(bare)|..]), k)
  {
    hide Arm, Advance, Good, MethodString, Over, Reported;
    bare := s[0] == LF;
    Peel(q, trace, n, s, k);
    if !bare {
      var q0 := q.(nread := q.nread + 1);
      ValueEdgeArmAt(q0, CR);
      TakesQuietly(q, trace, n, CR, q0.(state := HeaderValueDiscardWsAlmostDone));
      FeedAwaited(q0.(state := HeaderValueDiscardWsAlmostDone), trace, n + 1, s[1..], k);
    }
    var e := Ending(bare);
    assert s == e + s[|e|..];
    PartTaken(Live(q, trace, n), e, s[|e|..], k);
    EmptyRead(q, trace, n, bare);
    Peel(q.(nread := q.nread + |e|, state := HeaderValueDiscardLws), trace, n + |e|, s[|e|..], k);
  }

  /** A line end here, and no blank that would make the next line go on with it. */
  ghost predicate EmptyValue(s: seq<byte>) {
    exists bare :: Ending(bare) < s && !Blank(s[|Ending(bare)|])
  }

  /** White space as far as it goes, with a value behind it or none. */
  ghost predicate SpaceUpTo(space: seq<byte>, s: seq<byte>) {
    LegalSpace(space) && space < s && !Blank(s[|space|]) && (LineEnd(s[|space|]) ==> EmptyValue(s[|space|..]))
  }

  lemma SpaceMore(piece: seq<byte>, more: seq<byte>, s: seq<byte>)
    requires piece <= s && SpaceUpTo(more, s[|piece|..]) && LegalSpace(piece + more)
    ensures SpaceUpTo(piece + more, s)
  {
    hide EmptyValue, LegalSpace;
    var space, rest := piece + more, s[|piece|..];
    assert rest[|more|..] == s[|space|..] && rest[|more|] == s[|space|];
  }

  lemma NoSpace(s: seq<byte>)
    requires s != [] && !Blank(s[0]) && (LineEnd(s[0]) ==> EmptyValue(s))
    ensures SpaceUpTo([], s)
  {
    hide EmptyValue;
    assert s[0..] == s;
  }

  /** What may stand between a colon and a value. */
  lemma {:induction false} SpaceFirst(q: GoodParser, trace: seq<Event>, n: nat, s: seq<byte>, k: nat) returns (space: seq<byte>)
    requires q.state == HeaderValueDiscardWs && Room(q, |s|) && Reports(trace) == k && Reported(Over(Live(q, trace, n), s), k)
    ensures SpaceUpTo(space, s)
    decreases |s|
  {
    hide Advance, Good, MethodString, Over, Reported, SpaceUpTo, EmptyValue;
    Peel(q, trace, n, s, k);
    if Blank(s[0]) {
      BlankSkipped(q, trace, n, s[0]);
      var more := SpaceFirst(q.(nread := q.nread + 1), trace, n + 1, s[1..], k);
      space := [s[0]] + more;
      SpaceBehindBlank(s[0], more, s[1..]);
      SpaceMore([s[0]], more, s);
    } else if LineEnd(s[0]) {
      var bare := EmptyLineEnds(q, trace, n, s, k);
      space := SpaceBehindEnd(q, trace, n, s, bare, k);
    } else {
      space := [];
      NoSpace(s);
    }
  }

  /** A line end is white space if a blank follows it. */
  lemma {:induction false} SpaceBehindEnd(q: GoodParser, trace: seq<Event>, n: nat, s: seq<byte>, bare: bool, k: nat)
      returns (space: seq<byte>)
    requires Room(q, |s|) && Reports(trace) == k && Ending(bare) < s && Good(q.(state := HeaderValueDiscardLws, nread := q.nread + |Ending(bare)|))
    requires var q1 := q.(nread := q.nread + |Ending(bare)|, state := HeaderValueDiscardLws);
      Reported(Over(Live(q1, trace, n + |Ending(bare)|), s[|Ending(bare)|..]), k)
    ensures SpaceUpTo(space, s)
    decreases |s|, 0
  {
    hide Advance, Good, Over, Reported, SpaceUpTo, EmptyValue, LegalSpace;
    var e := Ending(bare);
    var q1, rest, n1 := q.(nread := q.nread + |e|, state := HeaderValueDiscardLws), s[|e|..], n + |e|;
    if Blank(rest[0]) {
      Peel(q1, trace, n1, rest, k);
      BlankSkipped(q1, trace, n1, rest[0]);
      var more := SpaceFirst(q1.(nread := q1.nread + 1, state := HeaderValueDiscardWs), trace, n1 + 1, rest[1..], k);
      space := e + [rest[0]] + more;
      SpaceBehindLine(bare, rest[0], more, rest[1..]);
      EndAndBlank(e, rest[0], s);
      SpaceMore(e + [rest[0]], more, s);
    } else {
      space := [];
      NoValue(bare, s);
      NoSpace(s);
    }
  }

  lemma EndAndBlank(e: seq<byte>, b: byte, s: seq<byte>)
    requires e < s && b == s[|e|]
    ensures e + [b] <= s && s[|e + [b]|..] == s[|e|..][1..]
  {}

  lemma NoValue(bare: bool, s: seq<byte>)
    requires Ending(bare) < s && !Blank(s[|Ending(bare)|])
    ensures EmptyValue(s) && s != [] && LineEnd(s[0]) && !Blank(s[0])
  {}

  lemma SpaceBehindBlank(b: byte, more: seq<byte>, s: seq<byte>)
    requires Blank(b) && SpaceUpTo(more, s)
    ensures LegalSpace([b] + more)
  {
    assert ([b] + more)[1..] == more;
  }

  lemma SpaceBehindLine(bare: bool, b: byte, more: seq<byte>, rest: seq<byte>)
    requires Blank(b) && SpaceUpTo(more, rest)
    ensures LegalSpace(Ending(bare) + [b] + more)
  {
    var s := Ending(bare) + [b] + more;
    assert s[|Ending(bare)| + 1..] == more;
  }

  // ---- A value on one line ---------------------------------------------------------------------

  /** Inside a value only header characters are taken. */
  lemma CharTaken(q: GoodParser, trace: seq<Event>, n: nat, b: byte)
    requires q.state == HeaderValue && Room(q, 1) && !LineEnd(b) && Advance(Live(q, trace, n), b) != Failed
    ensures IsHeaderChar(b) && MatchValue(q.(nread := q.nread + 1), b).Some?
  {
    hide Arm, Advance, Good, MethodString, IsHeaderChar, MatchValue;
    var q1 := q.(nread := q.nread + 1);
    ValueArmAt(q1, b);
    if ValueArm(q1, b).Bad? {
      Refuses(q, trace, n, b);
    }
  }

  /** Behind a carriage return that ends a value there is a line feed. */
  lemma ValueLineEnds(q: GoodParser, trace: seq<Event>, n: nat, v: seq<byte>, s: seq<byte>, k: nat) returns (bare: bool)
    requires q.state == HeaderValue && Room(q, |s|) && Reports(trace) == k
    requires Reported(Over(Live(q, Emit(trace, Data(Value, v)), n), s), k) && s != [] && LineEnd(s[0])
    ensures Ending(bare) < s
    ensures var q1 := q.(nread := q.nread + |Ending(bare)|, state := HeaderValueLws);
      Good(q1) && Reported(Over(Live(q1, Emit(trace, Data(Value, v)), n + |Ending(bare)|), s[|Ending(bare)|..]), k)
  {
    hide Arm, Advance, Good, MethodString, Over, Reported, Emit;
    bare := s[0] == LF;
    var t := Emit(trace, Data(Value, v));
    ReportsEmit(trace, Data(Value, v));
    Peel(q, t, n, s, k);
    if !bare {
      ValueReturn(q, trace, n, v);
      FeedAwaited(q.(nread := q.nread + 1, state := HeaderAlmostDone), t, n + 1, s[1..], k);
    }
    var e := Ending(bare);
    assert s == e + s[|e|..];
    PartTaken(Live(q, t, n), e, s[|e|..], k);
    ValueEnds(q, trace, n, v, bare);
    Peel(q.(nread := q.nread + |e|, state := HeaderValueLws), t, n + |e|, s[|e|..], k);
  }

  predicate EndsText(b: byte) {
    LineEnd(b) || !IsHeaderChar(b)
  }

  /** The first line of a value other than a length. */
  lemma ValueFirstly(q: GoodParser, trace: seq<Event>, n: nat, s: seq<byte>, k: nat) returns (v: seq<byte>)
    requires q.state == HeaderValueDiscardWs && ClassOf(q.headerState) != Sizing
    requires Room(q, |s|) && Reports(trace) == k && Reported(Over(Live(q, trace, n), s), k)
    requires s != [] && !Blank(s[0]) && !LineEnd(s[0])
    ensures v != [] && LegalValue(v) && v < s && LineEnd(s[|v|])
  {
    hide Advance, Good, MethodString, Over, Reported, Emit, IsHeaderChar, ValueTracked;
    var start, i := Live(q, trace, n), 1 + Find(s[1..], EndsText);
    v := s[..i];
    assert LegalValue(v) by {
      assert forall j :: 1 <= j < i ==> v[j] == s[1..][j - 1];
    }
    assert s == v + s[i..];
    PartTaken(start, v, s[i..], k);
    ValueOver(q, trace, n, v);
    ReportsEmit(trace, Data(Value, v));
    var r := Over(start, v);
    Peel(r.q, r.trace, r.n, s[i..], k);
    assert EndsText(s[i]);
    if !LineEnd(s[i]) {
      CharTaken(r.q, r.trace, r.n, s[i]);
    }
  }

  // ---- A length on one line --------------------------------------------------------------------

  lemma DigitBegins(q: GoodParser, trace: seq<Event>, n: nat, b: byte)
    requires q.state == HeaderValueDiscardWs && q.headerState == ContentLength && Room(q, 1) && !Blank(b) && !LineEnd(b)
    requires Advance(Live(q, trace, n), b) != Failed
    ensures IsNum(b) && !q.flags.contentLength
  {
    hide Arm, Advance, Good, MethodString;
    var q1 := q.(nread := q.nread + 1);
    ValueStartArmAt(q1, b);
    if ValueStartArm(q1, b).Bad? {
      Refuses(q, trace, n, b);
    }
  }

  /** Only a space or a line end can follow the digits, and only these the spaces. */
  lemma LengthTaken(q: GoodParser, trace: seq<Event>, n: nat, b: byte)
    requires q.state == HeaderValue && Room(q, 1) && b != SP && Advance(Live(q, trace, n), b) != Failed
    requires (q.headerState == ContentLengthNum && !IsNum(b)) || q.headerState == ContentLengthWs
    ensures LineEnd(b)
  {
    hide Advance, Good, MethodString, MatchToken;
    if !LineEnd(b) {
      CharTaken(q, trace, n, b);
    }
  }

  lemma {:induction false} NumberEndIs(v: seq<byte>, i: nat)
    requires i <= |v| && (forall j :: 0 <= j < i ==> v[j] != SP) && (i < |v| ==> v[i] == SP)
    ensures NumberEnd(v) == i
  {
    if i > 0 {
      NumberEndIs(v[1..], i - 1);
    }
  }

  lemma DigitsFirst(q: GoodParser, trace: seq<Event>, n: nat, s: seq<byte>, k: nat) returns (ds: seq<byte>)
    requires q.state == HeaderValueDiscardWs && q.headerState == ContentLength
    requires Room(q, |s|) && Reports(trace) == k && Reported(Over(Live(q, trace, n), s), k)
    requires s != [] && !Blank(s[0]) && !LineEnd(s[0])
    ensures !q.flags.contentLength && ds != [] && ds <= s && (|ds| < |s| ==> !IsNum(s[|ds|]))
    ensures Digits(ds) && Decimal(ds[..|ds| - 1]) <= DECIMAL_LIMIT
  {
    hide Advance, Good, MethodString, Over, Reported, Emit, Decimal;
    var start, i := Live(q, trace, n), Find(s, (b: byte) => !IsNum(b));
    Peel(q, trace, n, s, k);
    DigitBegins(q, trace, n, s[0]);
    ds := s[..i];
    assert s == ds + s[i..];
    PartTaken(start, ds, s[i..], k);
    ContentLengthExact(q, trace, n, ds);
  }

  lemma LengthFirstly(q: GoodParser, trace: seq<Event>, n: nat, s: seq<byte>, k: nat) returns (v: seq<byte>)
    requires q.state == HeaderValueDiscardWs && q.headerState == ContentLength
    requires Room(q, |s|) && Reports(trace) == k && Reported(Over(Live(q, trace, n), s), k)
    requires s != [] && !Blank(s[0]) && !LineEnd(s[0])
    ensures !q.flags.contentLength && LegalLength(v) && v < s && LineEnd(s[|v|])
  {
    hide Advance, Good, MethodString, Over, Reported, Emit, Decimal, Digits, LegalLength;
    var ds := DigitsFirst(q, trace, n, s, k);
    var i := |ds|;
    var j := i + Find(s[i..], (b: byte) => b != SP);
    v := s[..j];
    assert s == v + s[j..] && v == ds + v[i..];
    PaddedIsLegal(v, ds);
    PartTaken(Live(q, trace, n), v, s[j..], k);
    LengthOver(q, trace, n, v);
    PaddedEnd(q, trace, n, v, ds);
    ReportsEmit(trace, Data(Value, v));
    var r := Over(Live(q, trace, n), v);
    Peel(r.q, r.trace, r.n, s[j..], k);
    LengthTaken(r.q, r.trace, r.n, s[j]);
  }

  lemma PaddedIsLegal(v: seq<byte>, ds: seq<byte>)
    requires ds <= v && (forall j :: |ds| <= j < |v| ==> v[j] == SP)
    requires ds != [] && Digits(ds) && Decimal(ds[..|ds| - 1]) <= DECIMAL_LIMIT
    ensures LegalLength(v) && NumberEnd(v) == |ds|
  {
    hide Decimal;
    assert forall j :: 0 <= j < |ds| ==> v[j] == ds[j] && IsNum(ds[j]);
    NumberEndIs(v, |ds|);
    assert v[..|ds|] == ds && v[..|ds| - 1] == ds[..|ds| - 1];
  }

  /** Behind the digits alone the matcher waits for another one. */
  lemma PaddedEnd(q: GoodParser, trace: seq<Event>, n: nat, v: seq<byte>, ds: seq<byte>)
    requires q.state == HeaderValueDiscardWs && q.headerState == ContentLength && !q.flags.contentLength
    requires ds <= v && (forall j :: |ds| <= j < |v| ==> v[j] == SP)
    requires ds != [] && Digits(ds) && Decimal(ds[..|ds| - 1]) <= DECIMAL_LIMIT && Room(q, |v|)
    ensures var r := Over(Live(q, trace, n), v);
      r.Live? && r.q.headerState == if v == ds then ContentLengthNum else ContentLengthWs
  {
    hide Advance, Good, MethodString, Over, Emit, Decimal, Digits;
    var start, i := Live(q, trace, n), |ds|;
    assert v == ds + v[i..];
    OverAppend(start, ds, v[i..]);
    DigitsOver(q, trace, n, ds);
    PaddingOver(InLength(q, Decimal(ds), i), trace, n + i, ds, v[i..]);
  }

  // ---- Lines that continue a value -------------------------------------------------------------

  /** The matcher is inside a value, of a length or of anything else. */
  predicate Behind(q: Parser, sizing: bool) {
    if sizing then q.headerState == ContentLengthNum || q.headerState == ContentLengthWs else Running(q.headerState)
  }

  lemma TextFirstly(q: GoodParser, trace: seq<Event>, n: nat, v: seq<byte>, s: seq<byte>, k: nat) returns (text: seq<byte>, bare: bool)
    requires q.state == HeaderValue && Running(q.headerState) && Room(q, |s|) && Reports(trace) == k
    requires Reported(Over(Live(q, Emit(trace, Data(Value, v)), n), s), k)
    ensures LegalText(text) && text + Ending(bare) < s
  {
    hide Advance, Good, Over, Reported, Emit, EndsText, Running, Matched, LegalText, Ending;
    var i := Find(s, EndsText);
    text := s[..i];
    TextBefore(s, i);
    assert s == text + s[i..];
    PartTaken(Live(q, Emit(trace, Data(Value, v)), n), text, s[i..], k);
    TextOver(q, trace, n, v, text);
    var q1, t1 := Put(q, Matched(q, text), i), Emit(trace, Data(Value, v + text));
    ReportsEmit(trace, Data(Value, v + text));
    Peel(q1, t1, n + i, s[i..], k);
    if !LineEnd(s[i]) {
      CharTaken(q1, t1, n + i, s[i]);
      NotText(s[i]);
    }
    bare := ValueLineEnds(q1, trace, n + i, v + text, s[i..], k);
    PrefixThen(text, Ending(bare), s);
  }

  lemma TextBefore(s: seq<byte>, i: nat)
    requires i <= |s| && forall j :: 0 <= j < i ==> !EndsText(s[j])
    ensures LegalText(s[..i])
  {
    hide IsHeaderChar;
  }

  lemma NotText(b: byte)
    requires EndsText(b) && IsHeaderChar(b)
    ensures LineEnd(b)
  {}

  lemma PadFirstly(q: GoodParser, trace: seq<Event>, n: nat, v: seq<byte>, s: seq<byte>, k: nat) returns (text: seq<byte>, bare: bool)
    requires q.state == HeaderValue && q.headerState == ContentLengthWs && Room(q, |s|) && Reports(trace) == k
    requires Reported(Over(Live(q, Emit(trace, Data(Value, v)), n), s), k)
    ensures (forall i :: 0 <= i < |text| ==> text[i] == SP) && text + Ending(bare) < s
  {
    hide Advance, Good, MethodString, Over, Reported, Emit;
    var i := Find(s, (b: byte) => b != SP);
    text := s[..i];
    assert s == text + s[i..];
    PartTaken(Live(q, Emit(trace, Data(Value, v)), n), text, s[i..], k);
    PaddingOver(q, trace, n, v, text);
    ReportsEmit(trace, Data(Value, v + text));
    var q1 := q.(nread := q.nread + i);
    Peel(q1, Emit(trace, Data(Value, v + text)), n + i, s[i..], k);
    LengthTaken(q1, Emit(trace, Data(Value, v + text)), n + i, s[i]);
    bare := ValueLineEnds(q1, trace, n + i, v + text, s[i..], k);
  }

  /** A line that begins with a blank continues the value. */
  lemma FoldFirstly(q: GoodParser, trace: seq<Event>, n: nat, v: seq<byte>, s: seq<byte>, sizing: bool, k: nat) returns (c: Fold)
    requires q.state == HeaderValueLws && Behind(q, sizing) && Room(q, |s|) && Reports(trace) == k
    requires Reported(Over(Live(q, Emit(trace, Data(Value, v)), n), s), k) && s != [] && Blank(s[0])
    ensures LegalFold(c, sizing) && Written(c) < s
  {
    hide Good, Over, Reported, Emit, LegalText, Running, Ending;
    var text, bare;
    if sizing {
      text, bare := PadBehind(q, trace, n, v, s, k);
      SpacesAreText(text);
    } else {
      text, bare := TextBehind(q, trace, n, v, s, k);
    }
    c := Fold(s[0], text, bare);
    assert Written(c) == [s[0]] + (text + Ending(bare));
    assert s == [s[0]] + s[1..];
  }

  lemma PadBehind(q: GoodParser, trace: seq<Event>, n: nat, v: seq<byte>, s: seq<byte>, k: nat) returns (text: seq<byte>, bare: bool)
    requires q.state == HeaderValueLws && Behind(q, true) && Room(q, |s|) && Reports(trace) == k
    requires Reported(Over(Live(q, Emit(trace, Data(Value, v)), n), s), k) && s != [] && Blank(s[0])
    ensures (forall i :: 0 <= i < |text| ==> text[i] == SP) && text + Ending(bare) < s[1..]
  {
    hide Advance, Good, Over, Reported, Emit, Ending;
    var t := Emit(trace, Data(Value, v));
    ReportsEmit(trace, Data(Value, v));
    Peel(q, t, n, s, k);
    EmitData(trace, Value, v, [s[0]]);
    LengthBlank(q, t, n, s[0]);
    text, bare := PadFirstly(q.(state := HeaderValue, headerState := ContentLengthWs, index := 0, nread := q.nread + 1),
                             trace, n + 1, v + [s[0]], s[1..], k);
  }

  lemma TextBehind(q: GoodParser, trace: seq<Event>, n: nat, v: seq<byte>, s: seq<byte>, k: nat) returns (text: seq<byte>, bare: bool)
    requires q.state == HeaderValueLws && Behind(q, false) && Room(q, |s|) && Reports(trace) == k
    requires Reported(Over(Live(q, Emit(trace, Data(Value, v)), n), s), k) && s != [] && Blank(s[0])
    ensures LegalText(text) && text + Ending(bare) < s[1..]
  {
    hide Advance, Good, Over, Reported, Emit, Ending, Running, Folded, LegalText;
    var t := Emit(trace, Data(Value, v));
    ReportsEmit(trace, Data(Value, v));
    Peel(q, t, n, s, k);
    EmitData(trace, Value, v, [s[0]]);
    TextContinues(q, t, n, s[0]);
    FoldedRuns(q);
    text, bare := TextFirstly(Put(q, Folded(q), 1).(state := HeaderValue), trace, n + 1, v + [s[0]], s[1..], k);
  }

  lemma SpacesAreText(text: seq<byte>)
    requires forall i :: 0 <= i < |text| ==> text[i] == SP
    ensures LegalText(text)
  {}

  lemma {:induction false} WrittenCons(c: Fold, cs: seq<Fold>)
    ensures AllWritten([c] + cs) == Written(c) + AllWritten(cs)
  {
    hide Written;
    if cs == [] {
      assert [c][..0] == [] && [c] + cs == [c];
      assert Written(c) + [] == Written(c) == [] + Written(c);
    } else {
      var before, last := cs[..|cs| - 1], cs[|cs| - 1];
      WrittenCons(c, before);
      assert ([c] + cs)[..|cs|] == [c] + before;
      assert Written(c) + AllWritten(before) + Written(last) == Written(c) + (AllWritten(before) + Written(last));
    }
  }

  /** Behind a line that continues a value the matcher is still inside it. */
  lemma FoldRead(q: GoodParser, trace: seq<Event>, n: nat, v: seq<byte>, c: Fold, sizing: bool) returns (q1: GoodParser)
    requires q.state == HeaderValueLws && Behind(q, sizing) && LegalFold(c, sizing) && Room(q, |Written(c)|)
    ensures q1.state == HeaderValueLws && Behind(q1, sizing) && q1.nread == q.nread + |Written(c)|
    ensures Over(Live(q, Emit(trace, Data(Value, v)), n), Written(c))
      == Live(q1, Emit(trace, Data(Value, v + ([c.blank] + c.text))), n + |Written(c)|)
  {
    hide Good, Over, Emit, LegalText, Written, Running, Folded;
    if sizing {
      LengthContinued(q, trace, n, v, c);
      q1 := q.(headerState := ContentLengthWs, index := 0, nread := q.nread + |Written(c)|);
    } else {
      Continued(q, trace, n, v, c);
      FoldedRuns(q);
      MatchedRuns(Folded(q), c.text);
      q1 := Put(q, Matched(Folded(q), c.text), |Written(c)|);
    }
  }

  lemma {:induction false} FoldsFirstly(q: GoodParser, trace: seq<Event>, n: nat, v: seq<byte>, s: seq<byte>, sizing: bool, k: nat)
      returns (cs: seq<Fold>)
    requires q.state == HeaderValueLws && Behind(q, sizing) && Room(q, |s|) && Reports(trace) == k
    requires Reported(Over(Live(q, Emit(trace, Data(Value, v)), n), s), k)
    ensures FoldsUpTo(cs, s, sizing)
    decreases |s|
  {
    hide Good, Over, Emit, Reported, Written, Behind, FoldsUpTo, LegalFold, Advance;
    ReportsEmit(trace, Data(Value, v));
    Peel(q, Emit(trace, Data(Value, v)), n, s, k);
    if Blank(s[0]) {
      var c := FoldFirstly(q, trace, n, v, s, sizing, k);
      var rest := s[|Written(c)|..];
      WrittenSome(c);
      var q1 := BehindFold(q, trace, n, v, s, c, sizing, k);
      var more := FoldsFirstly(q1, trace, n + |Written(c)|, v + ([c.blank] + c.text), rest, sizing, k);
      cs := [c] + more;
      OneFoldMore(c, more, s, sizing);
    } else {
      cs := [];
      NoFolds(s, sizing);
    }
  }

  lemma BehindFold(q: GoodParser, trace: seq<Event>, n: nat, v: seq<byte>, s: seq<byte>, c: Fold, sizing: bool, k: nat)
      returns (q1: GoodParser)
    requires q.state == HeaderValueLws && Behind(q, sizing) && Room(q, |s|) && LegalFold(c, sizing) && Written(c) <= s
    requires Reported(Over(Live(q, Emit(trace, Data(Value, v)), n), s), k)
    ensures q1.state == HeaderValueLws && Behind(q1, sizing) && q1.nread == q.nread + |Written(c)|
    ensures Reported(Over(Live(q1, Emit(trace, Data(Value, v + ([c.blank] + c.text))), n + |Written(c)|), s[|Written(c)|..]), k)
  {
    hide Good, Over, Emit, Reported, Written, Behind, LegalFold;
    var w := Written(c);
    assert s == w + s[|w|..];
    PartTaken(Live(q, Emit(trace, Data(Value, v)), n), w, s[|w|..], k);
    q1 := FoldRead(q, trace, n, v, c, sizing);
  }

  /** The lines at the beginning of `s` that continue a value, as far as they go. */
  predicate FoldsUpTo(cs: seq<Fold>, s: seq<byte>, sizing: bool) {
    (forall c :: c in cs ==> LegalFold(c, sizing)) && AllWritten(cs) < s && !Blank(s[|AllWritten(cs)|])
  }

  lemma NoFolds(s: seq<byte>, sizing: bool)
    requires s != [] && !Blank(s[0])
    ensures FoldsUpTo([], s, sizing)
  {}

  lemma OneFoldMore(c: Fold, more: seq<Fold>, s: seq<byte>, sizing: bool)
    requires LegalFold(c, sizing) && Written(c) <= s && FoldsUpTo(more, s[|Written(c)|..], sizing)
    ensures FoldsUpTo([c] + more, s, sizing)
  {
    hide LegalFold, Written;
    var w, rest := Written(c), AllWritten(more);
    WrittenCons(c, more);
    assert s[|w|..][|rest|] == s[|w + rest|];
  }

  lemma WrittenSome(c: Fold)
    ensures |Written(c)| > 0
  {}
}
