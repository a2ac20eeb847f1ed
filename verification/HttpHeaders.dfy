/** Headers as they are written, and the parser on a value that stands on one line. */
module HttpHeaders {
  import opened Bytes
  import opened HttpTypes
  import opened HttpStep
  import opened HttpRun
  import opened HttpFeed
  import opened HttpNames
  import opened HttpLengths
  import opened HttpTokens

  /** A line that continues a value (obs-fold in section 3.2.4 of RFC 7230): a blank, text, and the end of the line. */
  datatype Fold = Fold(blank: byte, text: seq<byte>, bare: bool)

  /**
    A header: the name, optional white space behind the colon, the value as far as it stands on one
    line, whether only a line feed ends that line, and the lines that continue it.
  */
  datatype Header = Header(name: seq<byte>, space: seq<byte>, first: seq<byte>, bare: bool, folds: seq<Fold>)

  /** The end of a line: CR LF, or a bare LF, which section 3.5 of RFC 7230 lets a recipient take for it. */
  function Ending(bare: bool): seq<byte> {
    if bare then [LF] else [CR, LF]
  }

  predicate Blank(b: byte) {
    b == SP || b == HT
  }

  predicate LineEnd(b: byte) {
    b == CR || b == LF
  }

  function Written(c: Fold): seq<byte> {
    [c.blank] + c.text + Ending(c.bare)
  }

  function AllWritten(cs: seq<Fold>): seq<byte> {
    if cs == [] then [] else AllWritten(cs[..|cs| - 1]) + Written(cs[|cs| - 1])
  }

  /** The texts of the lines that continue a value. */
  function Texts(cs: seq<Fold>): seq<seq<byte>> {
    if cs == [] then [] else Texts(cs[..|cs| - 1]) + [cs[|cs| - 1].text]
  }

  /** The value with the lines that continue it: all but their line ends. */
  function Extended(v: seq<byte>, cs: seq<Fold>): seq<byte> {
    if cs == [] then v else Extended(v, cs[..|cs| - 1]) + ([cs[|cs| - 1].blank] + cs[|cs| - 1].text)
  }

  function ValueOf(h: Header): seq<byte> {
    Extended(h.first, h.folds)
  }

  /** The first line of a header; the other ones, if any, are behind it. */
  function FirstWritten(h: Header): (line: seq<byte>)
    ensures |line| >= 2
  {
    h.name + [COLON] + h.space + h.first + Ending(h.bare)
  }

  function Line(h: Header): (line: seq<byte>)
    ensures |line| >= 2
  {
    FirstWritten(h) + AllWritten(h.folds)
  }

  /** What the name of a header makes of its value. */
  datatype Class = Plain | Upgrading | Connecting | Encoding | Sizing

  function ClassOf(h: HeaderState): Class {
    match h
    case Upgrade => Upgrading
    case Connection => Connecting
    case TransferEncoding => Encoding
    case ContentLength => Sizing
    case _ => Plain
  }

  function ClassOfName(name: seq<byte>): Class {
    if name == [] then Plain else ClassOf(NameAfter(Lowered(name)))
  }

  // ---- Values ----------------------------------------------------------------------------------

  /** The sub-state in which a Transfer-Encoding value read so far leaves the parser. */
  function EncodingAfter(l: seq<byte>): HeaderState {
    if !Begins(l, CHUNKED) then General else if |l| < |CHUNKED| then MatchingChunked else Chunked
  }

  /** What the matcher knows after the nonempty part `l` of a value, having started with the flags `f`. */
  predicate ValueTracked(c: Class, f: Flags, q: Parser, l: seq<byte>) {
    match c
    case Plain => q.headerState == General && q.flags == f
    case Upgrading => q.headerState == General && q.flags == f.(upgrade := true)
    case Encoding => q.headerState == EncodingAfter(l) && q.flags == f && (Inside(q.headerState) ==> q.index == |l| - 1)
    case Connecting => l != [] && SameMatch(q, Matched(Begun(f, l[0]), l[1..]))
    case Sizing => false
  }

  lemma TrackEncoding(f: Flags, q: Parser, l: seq<byte>, ch: byte)
    requires l != [] && ValueTracked(Encoding, f, q, l)
    ensures ValueTracked(Encoding, f, MatchToken(q, ch, Lower(ch)), l + [ch])
  {
    hide At, Begins;
    BeginsSnoc(l, ch, CHUNKED);
    ConnectionWords(l);
  }

  lemma TrackConnection(f: Flags, q: Parser, l: seq<byte>, ch: byte)
    requires l != [] && ValueTracked(Connecting, f, q, l)
    ensures ValueTracked(Connecting, f, MatchToken(q, ch, Lower(ch)), l + [ch])
  {
    hide MatchToken;
    assert (l + [ch])[1..] == l[1..] + [ch] && (l + [ch])[0] == l[0];
    assert (l[1..] + [ch])[..|l[1..]|] == l[1..];
    SameMatched(q, Matched(Begun(f, l[0]), l[1..]), ch);
  }

  lemma MatchValueShape(q: Parser, ch: byte)
    requires NotSizing(q.headerState)
    ensures MatchValue(q, ch) == Some(MatchToken(q, ch, Lower(ch)))
    ensures var q1 := MatchToken(q, ch, Lower(ch));
      q1 == q.(headerState := q1.headerState, index := q1.index, flags := q1.flags)
  {
    hide At, TokenOf;
  }

  lemma ValueByteTracked(c: Class, f: Flags, q: Parser, l: seq<byte>, ch: byte)
    requires l != [] && ValueTracked(c, f, q, l)
    ensures MatchValue(q, ch).Some?
    ensures var q1 := MatchValue(q, ch).value;
      ValueTracked(c, f, q1, l + [ch]) && q1 == q.(headerState := q1.headerState, index := q1.index, flags := q1.flags)
  {
    hide At, TokenOf, Begins, EncodingAfter, ConnectionAfter, Matched, MatchToken, MatchValue;
    if c == Connecting {
      MatchedNotSizing(f, l);
    }
    assert EncodingAfter(l) == General || EncodingAfter(l) == MatchingChunked || EncodingAfter(l) == Chunked by {
      EncodingStates(l);
    }
    MatchValueShape(q, ch);
    if c == Encoding {
      TrackEncoding(f, q, l, ch);
    } else if c == Connecting {
      TrackConnection(f, q, l, ch);
    } else {
      GeneralByte(q, ch);
    }
  }

  lemma EncodingStates(l: seq<byte>)
    ensures EncodingAfter(l) == General || EncodingAfter(l) == MatchingChunked || EncodingAfter(l) == Chunked
  {}

  lemma ValueFirstTracked(q: Parser, ch: byte)
    requires ClassOf(q.headerState) != Sizing && NameState(q.headerState)
    ensures var a := ValueStartArm(q, ch);
      && a.Next? && a.mark == Mark(Value) && a.notes == []
      && a.q == q.(state := HeaderValue, headerState := a.q.headerState, index := 0, flags := a.q.flags)
      && ValueTracked(ClassOf(q.headerState), q.flags, a.q, [ch])
  {
    hide ConnectionAfter, EncodingAfter, Matched;
    FirstAfter(ch);
    if ClassOf(q.headerState) == Connecting {
      assert [ch][1..] == [];
      MatchedNone(Begun(q.flags, ch));
    }
  }

  /** The sub-states that the first byte of a value leads to. */
  lemma FirstAfter(ch: byte)
    ensures var c := Lower(ch);
      && EncodingAfter([ch]) == (if c == 99 then MatchingChunked else General)
      && ConnectionAfter([ch]) == if c == 107 then MatchingKeepAlive else if c == 99 then MatchingClose
                                  else if c == 117 then MatchingConnectionUpgrade else Token
  {
    hide At, Begins;
    assert [] + [ch] == [ch];
    NothingBegins(CHUNKED);
    NothingBegins(KEEP_ALIVE);
    NothingBegins(CLOSE);
    NothingBegins(UPGRADE);
    BeginsSnoc([], ch, CHUNKED);
    BeginsSnoc([], ch, KEEP_ALIVE);
    BeginsSnoc([], ch, CLOSE);
    BeginsSnoc([], ch, UPGRADE);
    FirstLetters(Lower(ch));
    ConnectionWords([ch]);
  }

  lemma NothingBegins(word: string)
    ensures Begins([], word)
  {}

  /** Inside a value, after `i` bytes of `v`; `q` is the parser right before it. */
  ghost predicate InValue(q: Parser, r: Run, trace: seq<Event>, n: nat, v: seq<byte>, i: nat)
    requires 1 <= i <= |v|
  {
    && r.Live? && r.trace == Emit(trace, Data(Value, v[..i])) && r.n == n + i
    && r.q == q.(state := HeaderValue, headerState := r.q.headerState, index := r.q.index, flags := r.q.flags,
                 nread := q.nread + i)
    && ValueTracked(ClassOf(q.headerState), q.flags, r.q, v[..i])
  }

  /** A value starts with anything but a blank or a line end; the bytes behind the first are checked. */
  predicate LegalValue(v: seq<byte>) {
    && (v != [] ==> !Blank(v[0]) && !LineEnd(v[0]))
    && (forall i :: 1 <= i < |v| ==> IsHeaderChar(v[i]) && !LineEnd(v[i]))
  }

  lemma TrackedAny(c: Class, f: Flags, q: Parser, l: seq<byte>, k: nat, s: State)
    requires ValueTracked(c, f, q, l)
    ensures ValueTracked(c, f, q.(nread := k, state := s), l)
  {
    hide ConnectionAfter, EncodingAfter;
  }

  lemma ValueFirst(q: GoodParser, trace: seq<Event>, n: nat, v: seq<byte>)
    requires q.state == HeaderValueDiscardWs && ClassOf(q.headerState) != Sizing && v != [] && LegalValue(v) && Room(q, 1)
    ensures InValue(q, Advance(Live(q, trace, n), v[0]), trace, n, v, 1)
  {
    hide Arm, Advance, ValueTracked, MethodString, Emit, ValueStartArm;
    var q1 := q.(nread := q.nread + 1);
    ValueStartArmAt(q1, v[0]);
    ValueFirstTracked(q1, v[0]);
    TakesData(q, trace, n, v[0], ValueStartArm(q1, v[0]).q, Value);
    assert v[..1] == [v[0]];
  }

  lemma ValueNext(q: GoodParser, r: Run, trace: seq<Event>, n: nat, v: seq<byte>, i: nat)
    requires 1 <= i < |v| && LegalValue(v) && InValue(q, r, trace, n, v, i) && Room(q, i + 1)
    ensures InValue(q, Advance(r, v[i]), trace, n, v, i + 1)
  {
    hide Arm, Advance, ValueTracked, MethodString, Emit, MatchValue, Good;
    var c := ClassOf(q.headerState);
    var q1 := r.q.(nread := r.q.nread + 1);
    ValueArmAt(q1, v[i]);
    TrackedAny(c, q.flags, r.q, v[..i], q1.nread, q1.state);
    ValueByteTracked(c, q.flags, q1, v[..i], v[i]);
    TakesData(r.q, r.trace, r.n, v[i], MatchValue(q1, v[i]).value, Value);
    EmitData(trace, Value, v[..i], [v[i]]);
    assert v[..i + 1] == v[..i] + [v[i]];
  }

  lemma {:induction false} ValueRun(q: GoodParser, trace: seq<Event>, n: nat, v: seq<byte>, i: nat)
    requires q.state == HeaderValueDiscardWs && ClassOf(q.headerState) != Sizing && 1 <= i <= |v| && LegalValue(v) && Room(q, i)
    ensures InValue(q, Upto(Live(q, trace, n), v, i), trace, n, v, i)
  {
    hide Advance, Good, InValue, LegalValue;
    var start := Live(q, trace, n);
    UptoStep(start, v, i - 1);
    if i == 1 {
      assert Upto(start, v, 0) == start;
      ValueFirst(q, trace, n, v);
    } else {
      ValueRun(q, trace, n, v, i - 1);
      ValueNext(q, Upto(start, v, i - 1), trace, n, v, i - 1);
    }
  }

  // ---- Lines -----------------------------------------------------------------------------------

  lemma SettledIsGood(q: GoodParser)
    requires q.state == HeaderValueLws || q.state == HeaderValueDiscardLws
    ensures Good(q.(flags := EndFlags(q), state := HeaderFieldStart))
    ensures EndFlags(q.(nread := q.nread + 1)) == EndFlags(q)
  {}

  /** Behind the line feed of a header line the next byte, if not a blank, is read as the start of a line. */
  function Settled(r: Run): Run {
    if r.Live? && r.q.state == HeaderValueLws then
      Live(r.q.(flags := EndFlags(r.q), state := HeaderFieldStart), r.trace, r.n)
    else if r.Live? && r.q.state == HeaderValueDiscardLws && r.q.headerState != ContentLength then
      Live(r.q.(flags := EndFlags(r.q), state := HeaderFieldStart), Emit(r.trace, Data(Value, [])), r.n)
    else r
  }

  lemma SettlesBy(q: GoodParser, trace: seq<Event>, n: nat, b: byte, mark: MarkAct)
    requires !Blank(b) && Room(q, 1)
    requires if q.state == HeaderValueLws then mark == NoMark
      else q.state == HeaderValueDiscardLws && q.headerState != ContentLength && mark == MarkFlush(Value)
    ensures Good(q.(flags := EndFlags(q), state := HeaderFieldStart))
    ensures Advance(Live(q, trace, n), b)
      == Advance(Live(q.(flags := EndFlags(q), state := HeaderFieldStart), EmitAll(trace, OwnData(mark, b)), n), b)
  {
    hide Arm, Advance, EmitAll, MethodString, EndFlags, Good;
    SettledIsGood(q);
    var q1 := q.(nread := q.nread + 1);
    ValueEdgeArmAt(q1, b);
    TakesAgain(q, trace, n, b, q1.(flags := EndFlags(q1), state := HeaderFieldStart), mark, []);
    assert OwnData(mark, b) + [] == OwnData(mark, b);
  }

  lemma SettledNext(r: Run, b: byte)
    requires !Blank(b)
    ensures Advance(r, b) == Advance(Settled(r), b)
  {
    hide Arm, Advance, EmitAll, MethodString, Emit, EndFlags, Good;
    if Settled(r) != r {
      if Room(r.q, 1) {
        SettlesBy(r.q, r.trace, r.n, b, if r.q.state == HeaderValueLws then NoMark else MarkFlush(Value));
        EmitAllOne(r.trace, Data(Value, []));
        EmitAllNone(r.trace);
      } else {
        NoRoom(r, b);
        NoRoom(Settled(r), b);
      }
    }
  }

  lemma NoRoom(r: Run, b: byte)
    requires r.Live? && ParsingHeader(r.q.state) && !Room(r.q, 1)
    ensures Advance(r, b) == Failed
  {
    hide Exec, MethodString, Good;
  }

  /** What follows a header line is read from where the line settled. */
  lemma SettledOver(r: Run, data: seq<byte>)
    requires data != [] && !Blank(data[0])
    ensures Over(r, data) == Over(Settled(r), data)
  {
    hide Advance;
    assert data == [data[0]] + data[1..];
    OverAppend(r, [data[0]], data[1..]);
    OverAppend(Settled(r), [data[0]], data[1..]);
    OverOne(r, data[0]);
    OverOne(Settled(r), data[0]);
    SettledNext(r, data[0]);
  }

  /** What a header whose name is of class `c` does to the flags. */
  predicate LineFlags(c: Class, f: Flags, f1: Flags, h: Header) {
    match c
    case Plain => f1 == f
    case Upgrading => f1 == f.(upgrade := f.upgrade || h.first != [])
    case Encoding => f1 == f.(chunked := f.chunked || (h.folds == [] && Says(h.first, CHUNKED)))
    case Connecting => f1 == Heard(f, h.first, Texts(h.folds))
    case Sizing => f1 == f.(contentLength := true)
  }

  lemma EndingOver(r: Run, bare: bool)
    ensures Over(r, Ending(bare)) == if bare then Advance(r, LF) else Advance(Advance(r, CR), LF)
  {
    hide Advance;
    if bare {
      OverOne(r, LF);
    } else {
      assert [CR, LF] == [CR] + [LF];
      OverMore(r, [CR], LF);
      OverOne(r, CR);
    }
  }

  lemma AlmostDoneIsGood(q: GoodParser)
    requires q.state == HeaderValue
    ensures Good(q.(state := HeaderAlmostDone))
  {}

  /** A carriage return behind a value. */
  lemma ValueReturn(q: GoodParser, trace: seq<Event>, n: nat, v: seq<byte>)
    requires q.state == HeaderValue && Room(q, 1)
    ensures var t, q1 := Emit(trace, Data(Value, v)), q.(nread := q.nread + 1, state := HeaderAlmostDone);
      Good(q1) && Advance(Live(q, t, n), CR) == Live(q1, t, n + 1)
  {
    hide Arm, Advance, MethodString, Emit, EmitAll, Good;
    EmitEnd(trace, Value, v);
    var q0 := q.(nread := q.nread + 1);
    ValueArmAt(q0, CR);
    TakesEnd(q, Emit(trace, Data(Value, v)), n, CR, q0.(state := HeaderAlmostDone), Value);
  }

  /** A line feed behind a value is read once more, as the end of the line. */
  lemma ValueLineFeed(q: GoodParser, trace: seq<Event>, n: nat, v: seq<byte>)
    requires q.state == HeaderValue && Room(q, 1)
    ensures var t, q1 := Emit(trace, Data(Value, v)), q.(state := HeaderAlmostDone);
      Good(q1) && Advance(Live(q, t, n), LF) == Advance(Live(q1, t, n), LF)
  {
    hide Arm, Advance, MethodString, Emit, EmitAll, Good;
    var t := Emit(trace, Data(Value, v));
    EmitEnd(trace, Value, v);
    AlmostDoneIsGood(q);
    var q0 := q.(nread := q.nread + 1);
    ValueArmAt(q0, LF);
    TakesAgain(q, t, n, LF, q0.(state := HeaderAlmostDone), Flush(Value), []);
    assert OwnData(Flush(Value), LF) + [] == [Data(Value, [])];
    EmitAllOne(t, Data(Value, []));
  }

  lemma ValueEnds(q: GoodParser, trace: seq<Event>, n: nat, v: seq<byte>, bare: bool)
    requires q.state == HeaderValue && Room(q, |Ending(bare)|)
    ensures var q2 := q.(nread := q.nread + |Ending(bare)|, state := HeaderValueLws);
      && Good(q2)
      && Over(Live(q, Emit(trace, Data(Value, v)), n), Ending(bare)) == Live(q2, Emit(trace, Data(Value, v)), n + |Ending(bare)|)
  {
    hide Arm, Advance, MethodString, Emit, Good, Over;
    var t := Emit(trace, Data(Value, v));
    EndingOver(Live(q, t, n), bare);
    AlmostDoneIsGood(q);
    if bare {
      ValueLineFeed(q, trace, n, v);
      LineFed(q.(state := HeaderAlmostDone), t, n);
    } else {
      ValueReturn(q, trace, n, v);
      LineFed(q.(nread := q.nread + 1, state := HeaderAlmostDone), t, n + 1);
    }
  }

  /** The line feed that ends a header line. */
  lemma LineFed(q: GoodParser, t: seq<Event>, n: nat)
    requires q.state == HeaderAlmostDone && Room(q, 1)
    ensures var q1 := q.(nread := q.nread + 1, state := HeaderValueLws);
      Good(q1) && Advance(Live(q, t, n), LF) == Live(q1, t, n + 1)
  {
    hide Arm, Advance, MethodString, Good;
    ValueEdgeArmAt(q.(nread := q.nread + 1), LF);
    TakesQuietly(q, t, n, LF, q.(nread := q.nread + 1, state := HeaderValueLws));
  }

  lemma NameStateAt(q: GoodParser)
    requires q.state == HeaderValueDiscardWs
    ensures NameState(q.headerState)
  {}

  lemma EmptyRead(q: GoodParser, trace: seq<Event>, n: nat, bare: bool)
    requires q.state == HeaderValueDiscardWs && Room(q, |Ending(bare)|)
    ensures var q2 := q.(nread := q.nread + |Ending(bare)|, state := HeaderValueDiscardLws);
      Good(q2) && Over(Live(q, trace, n), Ending(bare)) == Live(q2, trace, n + |Ending(bare)|)
  {
    hide Arm, Advance, MethodString, Good;
    EndingOver(Live(q, trace, n), bare);
    var q0 := q.(nread := q.nread + 1);
    if bare {
      ValueEdgeArmAt(q0, LF);
      TakesQuietly(q, trace, n, LF, q0.(state := HeaderValueDiscardLws));
    } else {
      var q1 := q0.(state := HeaderValueDiscardWsAlmostDone);
      ValueEdgeArmAt(q0, CR);
      TakesQuietly(q, trace, n, CR, q1);
      ValueEdgeArmAt(q1.(nread := q.nread + 2), LF);
      TakesQuietly(q1, trace, n + 1, LF, q.(nread := q.nread + 2, state := HeaderValueDiscardLws));
    }
  }

  lemma ClassSizing(h: HeaderState)
    ensures ClassOf(h) == Sizing <==> h == ContentLength
  {}

  // ---- What can be taken -----------------------------------------------------------------------

  /** White space in front of a value: blanks, and line ends with a blank behind them. */
  predicate LegalSpace(s: seq<byte>) {
    || s == []
    || (Blank(s[0]) && LegalSpace(s[1..]))
    || (|s| >= 2 && s[0] == LF && Blank(s[1]) && LegalSpace(s[2..]))
    || (|s| >= 3 && s[0] == CR && s[1] == LF && Blank(s[2]) && LegalSpace(s[3..]))
  }

  /** How many bytes there are before the first space. */
  function NumberEnd(v: seq<byte>): (k: nat)
    ensures k <= |v| && forall i :: 0 <= i < k ==> v[i] != SP
  {
    if v == [] || v[0] == SP then 0 else 1 + NumberEnd(v[1..])
  }

  /** The first line of a Content-Length that can be taken: digits within the limit, and spaces. */
  predicate LegalLength(v: seq<byte>) {
    var k := NumberEnd(v);
    && k > 0 && Digits(v[..k]) && Decimal(v[..k - 1]) <= DECIMAL_LIMIT
    && forall i :: k <= i < |v| ==> v[i] == SP
  }

  /** The number that such a line gives. */
  function SizeIn(v: seq<byte>): nat {
    if Digits(v[..NumberEnd(v)]) then Decimal(v[..NumberEnd(v)]) else 0
  }

  predicate LegalText(t: seq<byte>) {
    forall i :: 0 <= i < |t| ==> IsHeaderChar(t[i]) && !LineEnd(t[i])
  }

  /** A name written with letters and hyphens. */
  predicate TokenText(s: string) {
    s != "" && forall i :: 0 <= i < |s| ==> s[i] == '-' || 'A' <= s[i] <= 'Z' || 'a' <= s[i] <= 'z'
  }

  /** A value written with visible characters. */
  predicate PlainText(s: string) {
    s != "" && forall i :: 0 <= i < |s| ==> '!' <= s[i] <= '~'
  }

  lemma NameIsToken(s: string)
    requires TokenText(s)
    ensures IsToken(Ascii(s))
  {
    forall i | 0 <= i < |s|
      ensures TokenOf(Ascii(s)[i]) != 0
    {
      assert Ascii(s)[i] == s[i] as int;
    }
  }

  lemma TextIsLegal(s: string)
    requires PlainText(s)
    ensures LegalText(Ascii(s)) && LegalValue(Ascii(s))
  {
    forall i | 0 <= i < |s|
      ensures 33 <= Ascii(s)[i] <= 126
    {
      assert Ascii(s)[i] == s[i] as int;
    }
  }

  /** A line that can continue a value; behind a Content-Length only spaces can. */
  predicate LegalFold(c: Fold, sizing: bool) {
    Blank(c.blank) && LegalText(c.text) && (sizing ==> forall i :: 0 <= i < |c.text| ==> c.text[i] == SP)
  }

  /** Whether a parser can take the header, `sized` saying that there was a Content-Length before. */
  predicate Acceptable(h: Header, sized: bool) {
    var sizing := ClassOfName(h.name) == Sizing;
    && h.name != [] && IsToken(h.name) && LegalSpace(h.space)
    && (h.folds != [] ==> h.first != []) && (forall c :: c in h.folds ==> LegalFold(c, sizing))
    && if sizing then LegalLength(h.first) && !sized else LegalValue(h.first)
  }
}
