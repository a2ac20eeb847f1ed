/** Whole headers, on one line or folded over several: what they deliver and which flags they set. */
module HttpFolding {
  import opened Bytes
  import opened HttpTypes
  import opened HttpStep
  import opened HttpRun
  import opened HttpFeed
  import opened HttpNames
  import opened HttpLengths
  import opened HttpTokens
  import opened HttpHeaders

  // ---- White space in front of a value ---------------------------------------------------------

  lemma BlankSkipped(q: GoodParser, trace: seq<Event>, n: nat, b: byte)
    requires (q.state == HeaderValueDiscardWs || q.state == HeaderValueDiscardLws) && Blank(b) && Room(q, 1)
    ensures var q1 := q.(state := HeaderValueDiscardWs, nread := q.nread + 1);
      Good(q1) && Advance(Live(q, trace, n), b) == Live(q1, trace, n + 1)
  {
    hide Arm, Advance, MethodString, Good;
    ValueEdgeArmAt(q.(nread := q.nread + 1), b);
    TakesQuietly(q, trace, n, b, q.(state := HeaderValueDiscardWs, nread := q.nread + 1));
  }

  /** An empty line that is continued is passed over like a blank. */
  lemma EmptySkipped(q: GoodParser, trace: seq<Event>, n: nat, bare: bool, b: byte)
    requires q.state == HeaderValueDiscardWs && Blank(b) && Room(q, |Ending(bare)| + 1)
    ensures var k := |Ending(bare)| + 1;
      && Good(q.(nread := q.nread + k))
      && Over(Live(q, trace, n), Ending(bare) + [b]) == Live(q.(nread := q.nread + k), trace, n + k)
  {
    hide Advance, MethodString, Good, Over;
    var k := |Ending(bare)|;
    OverMore(Live(q, trace, n), Ending(bare), b);
    EmptyRead(q, trace, n, bare);
    BlankSkipped(q.(nread := q.nread + k, state := HeaderValueDiscardLws), trace, n + k, b);
  }

  lemma {:induction false} SpaceOver(q: GoodParser, trace: seq<Event>, n: nat, s: seq<byte>)
    requires q.state == HeaderValueDiscardWs && LegalSpace(s) && Room(q, |s|)
    ensures Good(q.(nread := q.nread + |s|)) && Over(Live(q, trace, n), s) == Live(q.(nread := q.nread + |s|), trace, n + |s|)
    decreases |s|
  {
    hide Advance, MethodString, Good, Over;
    var start := Live(q, trace, n);
    if s == [] {
      OverNone(start);
    } else if Blank(s[0]) {
      assert s == [s[0]] + s[1..];
      OverAppend(start, [s[0]], s[1..]);
      OverOne(start, s[0]);
      BlankSkipped(q, trace, n, s[0]);
      SpaceOver(q.(nread := q.nread + 1), trace, n + 1, s[1..]);
    } else {
      var bare := s[0] == LF;
      var k := |Ending(bare)|;
      assert s == Ending(bare) + [s[k]] + s[k + 1..];
      OverAppend(start, Ending(bare) + [s[k]], s[k + 1..]);
      EmptySkipped(q, trace, n, bare, s[k]);
      SpaceOver(q.(nread := q.nread + k + 1), trace, n + k + 1, s[k + 1..]);
    }
  }

  // ---- The first line --------------------------------------------------------------------------

  /** Behind the line end of a nonempty value, before the next byte tells whether it is continued. */
  ghost predicate Unsettled(q: Parser, r: Run, trace: seq<Event>, n: nat, v: seq<byte>, k: nat) {
    && r.Live? && r.trace == Emit(trace, Data(Value, v)) && r.n == n + k
    && r.q == q.(state := HeaderValueLws, headerState := r.q.headerState, index := r.q.index, flags := r.q.flags,
                 contentLength := r.q.contentLength, nread := q.nread + k)
  }

  /** What the first line of a value leaves behind, by the class of the name. */
  predicate Tracked(c: Class, q: Parser, q1: Parser, v: seq<byte>) {
    if c == Sizing then
      && (q1.headerState == ContentLengthNum || q1.headerState == ContentLengthWs)
      && q1.flags == q.flags.(contentLength := true) && q1.contentLength == SizeIn(v)
    else ValueTracked(c, q.flags, q1, v) && q1.contentLength == q.contentLength
  }

  lemma PlainFirst(q: GoodParser, trace: seq<Event>, n: nat, v: seq<byte>, bare: bool)
    requires q.state == HeaderValueDiscardWs && ClassOf(q.headerState) != Sizing && v != [] && LegalValue(v)
    requires Room(q, |v| + |Ending(bare)|)
    ensures var r := Over(Over(Live(q, trace, n), v), Ending(bare));
      Unsettled(q, r, trace, n, v, |v| + |Ending(bare)|) && Tracked(ClassOf(q.headerState), q, r.q, v)
  {
    hide Advance, MethodString, Emit, ValueTracked, Ending, Over, Good, LegalValue;
    ValueOver(q, trace, n, v);
    var r := Over(Live(q, trace, n), v);
    ValueEnds(r.q, trace, r.n, v, bare);
    var r1 := Over(r, Ending(bare));
    TrackedAny(ClassOf(q.headerState), q.flags, r.q, v, r1.q.nread, HeaderValueLws);
  }

  lemma ValueOver(q: GoodParser, trace: seq<Event>, n: nat, v: seq<byte>)
    requires q.state == HeaderValueDiscardWs && ClassOf(q.headerState) != Sizing && v != [] && LegalValue(v) && Room(q, |v|)
    ensures InValue(q, Over(Live(q, trace, n), v), trace, n, v, |v|)
    ensures v[..|v|] == v
  {
    hide Good, Advance, Upto, InValue, LegalValue;
    ValueRun(q, trace, n, v, |v|);
  }

  /** Spaces behind the digits of a length. */
  lemma {:induction false} PaddingRun(q: GoodParser, trace: seq<Event>, n: nat, v: seq<byte>, s: seq<byte>, i: nat)
    requires q.state == HeaderValue && (q.headerState == ContentLengthNum || q.headerState == ContentLengthWs)
    requires i <= |s| && Room(q, i) && forall j :: 0 <= j < |s| ==> s[j] == SP
    ensures var q1 := q.(headerState := if i == 0 then q.headerState else ContentLengthWs, nread := q.nread + i);
      && Good(q1)
      && Upto(Live(q, Emit(trace, Data(Value, v)), n), s, i) == Live(q1, Emit(trace, Data(Value, v + s[..i])), n + i)
  {
    hide Arm, Advance, MethodString, Good, Emit;
    if i == 0 {
      assert v + s[..0] == v;
    } else {
      var start := Live(q, Emit(trace, Data(Value, v)), n);
      PaddingRun(q, trace, n, v, s, i - 1);
      UptoStep(start, s, i - 1);
      var q1 := q.(headerState := if i == 1 then q.headerState else ContentLengthWs, nread := q.nread + i - 1);
      PaddingArmAt(q1.(nread := q.nread + i));
      TakesData(q1, Emit(trace, Data(Value, v + s[..i - 1])), n + i - 1, SP,
                q.(headerState := ContentLengthWs, nread := q.nread + i), Value);
      EmitData(trace, Value, v + s[..i - 1], [SP]);
      assert v + s[..i - 1] + [SP] == v + s[..i];
    }
  }

  lemma PaddingArmAt(q: Parser)
    requires q.state == HeaderValue && (q.headerState == ContentLengthNum || q.headerState == ContentLengthWs)
    ensures Arm(q, SP) == Next(q.(headerState := ContentLengthWs), Keep(Value), [])
  {
    hide MatchToken;
    ValueArmAt(q, SP);
  }

  lemma PaddingOver(q: GoodParser, trace: seq<Event>, n: nat, v: seq<byte>, s: seq<byte>)
    requires q.state == HeaderValue && (q.headerState == ContentLengthNum || q.headerState == ContentLengthWs)
    requires Room(q, |s|) && forall j :: 0 <= j < |s| ==> s[j] == SP
    ensures var q1 := q.(headerState := if s == [] then q.headerState else ContentLengthWs, nread := q.nread + |s|);
      && Good(q1)
      && Over(Live(q, Emit(trace, Data(Value, v)), n), s) == Live(q1, Emit(trace, Data(Value, v + s)), n + |s|)
  {
    hide Good, Emit, Advance, Upto;
    PaddingRun(q, trace, n, v, s, |s|);
    assert s[..|s|] == s;
  }

  /** The digits of a length and the spaces behind them. */
  lemma LengthOver(q: GoodParser, trace: seq<Event>, n: nat, v: seq<byte>)
    requires q.state == HeaderValueDiscardWs && q.headerState == ContentLength && !q.flags.contentLength
    requires LegalLength(v) && Room(q, |v|)
    ensures var r := Over(Live(q, trace, n), v);
      && r.Live? && r.trace == Emit(trace, Data(Value, v)) && r.n == n + |v| && Tracked(Sizing, q, r.q, v)
      && r.q == q.(state := HeaderValue, headerState := r.q.headerState, index := 0, flags := r.q.flags,
                   contentLength := r.q.contentLength, nread := q.nread + |v|)
  {
    hide MethodString, Emit, Good, Over, Decimal, Digits;
    var k := NumberEnd(v);
    var ds, s := v[..k], v[k..];
    assert ds + s == v && ds[..k - 1] == v[..k - 1];
    OverAppend(Live(q, trace, n), ds, s);
    DigitsOver(q, trace, n, ds);
    PaddingOver(InLength(q, Decimal(ds), k), trace, n + k, ds, s);
  }

  lemma DigitsOver(q: GoodParser, trace: seq<Event>, n: nat, ds: seq<byte>)
    requires q.state == HeaderValueDiscardWs && q.headerState == ContentLength && !q.flags.contentLength
    requires ds != [] && Digits(ds) && Decimal(ds[..|ds| - 1]) <= DECIMAL_LIMIT && Room(q, |ds|)
    ensures var q1 := InLength(q, Decimal(ds), |ds|);
      Good(q1) && Over(Live(q, trace, n), ds) == Live(q1, Emit(trace, Data(Value, ds)), n + |ds|)
  {
    hide Good, Emit, Advance, Upto;
    LengthDigitsRun(q, trace, n, ds, |ds|);
    assert ds[..|ds|] == ds;
  }

  lemma LengthFirstLine(q: GoodParser, trace: seq<Event>, n: nat, v: seq<byte>, bare: bool)
    requires q.state == HeaderValueDiscardWs && q.headerState == ContentLength && !q.flags.contentLength
    requires LegalLength(v) && Room(q, |v| + |Ending(bare)|)
    ensures var r := Over(Over(Live(q, trace, n), v), Ending(bare));
      Unsettled(q, r, trace, n, v, |v| + |Ending(bare)|) && Tracked(Sizing, q, r.q, v)
  {
    hide Advance, MethodString, Emit, Good, Ending, Over, LegalLength, SizeIn;
    LengthOver(q, trace, n, v);
    var r := Over(Live(q, trace, n), v);
    ValueEnds(r.q, trace, r.n, v, bare);
  }

  // ---- Continuation lines ----------------------------------------------------------------------

  /** A sub-state of a value that has begun, other than a length. */
  predicate Running(h: HeaderState) {
    !WholeName(h) && NotSizing(h)
  }

  /** The parser with what the matcher knows, `k` bytes on. */
  function Put(q: Parser, m: Parser, k: nat): Parser {
    q.(headerState := m.headerState, index := m.index, flags := m.flags, nread := q.nread + k)
  }

  lemma TextContinues(q: GoodParser, trace: seq<Event>, n: nat, b: byte)
    requires q.state == HeaderValueLws && Running(q.headerState) && Blank(b) && Room(q, 1)
    ensures var q1 := Put(q, Folded(q), 1).(state := HeaderValue);
      Good(q1) && Advance(Live(q, trace, n), b) == Live(q1, Emit(trace, Data(Value, [b])), n + 1)
  {
    hide Arm, Advance, MethodString, Emit, Good, Running, Folded, Put;
    LineLeft(q, trace, n, b);
    BlankTaken(q.(state := HeaderValueStart), trace, n, b);
    SamePut(q);
  }

  /** The blank is read once more, as the beginning of a value. */
  lemma LineLeft(q: GoodParser, trace: seq<Event>, n: nat, b: byte)
    requires q.state == HeaderValueLws && Running(q.headerState) && Blank(b) && Room(q, 1)
    ensures var q0 := q.(state := HeaderValueStart);
      Good(q0) && Advance(Live(q, trace, n), b) == Advance(Live(q0, trace, n), b)
  {
    hide Arm, Advance, MethodString, Good, Running;
    StartIsGood(q);
    LwsArmAt(q.(nread := q.nread + 1), b);
    TakesOn(q, trace, n, b, q.(state := HeaderValueStart));
  }

  lemma BlankTaken(q: GoodParser, trace: seq<Event>, n: nat, b: byte)
    requires q.state == HeaderValueStart && Running(q.headerState) && Room(q, 1)
    ensures var q1 := Put(q, Folded(q), 1).(state := HeaderValue);
      Good(q1) && Advance(Live(q, trace, n), b) == Live(q1, Emit(trace, Data(Value, [b])), n + 1)
  {
    hide Arm, Advance, MethodString, Emit, Good, Running;
    StartArmAt(q.(nread := q.nread + 1), b);
    TakesData(q, trace, n, b, Put(q, Folded(q), 1).(state := HeaderValue), Value);
  }

  lemma SamePut(q: Parser)
    ensures var q0 := q.(state := HeaderValueStart);
      Put(q0, Folded(q0), 1).(state := HeaderValue) == Put(q, Folded(q), 1).(state := HeaderValue)
  {}

  lemma StartIsGood(q: GoodParser)
    requires q.state == HeaderValueLws && Running(q.headerState)
    ensures Good(q.(state := HeaderValueStart))
  {}

  lemma LwsArmAt(q: Parser, ch: byte)
    requires q.state == HeaderValueLws && Running(q.headerState) && Blank(ch)
    ensures Arm(q, ch) == Again(q.(state := HeaderValueStart), NoMark, [])
  {
    hide Arm;
    ValueEdgeArmAt(q, ch);
  }

  lemma StartArmAt(q: Parser, ch: byte)
    requires q.state == HeaderValueStart && Running(q.headerState)
    ensures Arm(q, ch) == Next(Put(q, Folded(q), 0).(state := HeaderValue), Mark(Value), [])
  {
    hide Arm;
    ValueStartArmAt(q, ch);
  }

  lemma MatchedRuns(q: Parser, l: seq<byte>)
    requires Running(q.headerState)
    ensures Running(Matched(q, l).headerState)
  {
    hide MatchToken, Running;
    if l != [] {
      TokenRuns(Matched(q, l[..|l| - 1]), l[|l| - 1]);
    }
  }

  lemma TokenRuns(q: Parser, ch: byte)
    ensures Running(MatchToken(q, ch, Lower(ch)).headerState)
  {
    hide At, TokenOf;
  }

  lemma FoldedRuns(q: Parser)
    ensures Running(Folded(q).headerState)
  {}

  /** One byte of a value that has begun. */
  lemma TextByte(q: GoodParser, trace: seq<Event>, n: nat, v: seq<byte>, ch: byte)
    requires q.state == HeaderValue && Running(q.headerState) && Room(q, 1) && IsHeaderChar(ch) && !LineEnd(ch)
    ensures var q1 := Put(q, MatchToken(q, ch, Lower(ch)), 1);
      && Good(q1)
      && Advance(Live(q, Emit(trace, Data(Value, v)), n), ch) == Live(q1, Emit(trace, Data(Value, v + [ch])), n + 1)
  {
    hide Arm, Advance, MethodString, Good, Emit, IsHeaderChar, MatchToken, MatchValue;
    var q0 := q.(nread := q.nread + 1);
    ValueArmAt(q0, ch);
    MatchValueShape(q0, ch);
    SameMatched(q, q0, ch);
    TakesData(q, Emit(trace, Data(Value, v)), n, ch, Put(q, MatchToken(q, ch, Lower(ch)), 1), Value);
    EmitData(trace, Value, v, [ch]);
  }

  lemma {:induction false} TextRun(q: GoodParser, trace: seq<Event>, n: nat, v: seq<byte>, s: seq<byte>, i: nat)
    requires q.state == HeaderValue && Running(q.headerState) && i <= |s| && Room(q, i) && LegalText(s)
    ensures var q1 := Put(q, Matched(q, s[..i]), i);
      && Good(q1)
      && Upto(Live(q, Emit(trace, Data(Value, v)), n), s, i) == Live(q1, Emit(trace, Data(Value, v + s[..i])), n + i)
  {
    hide Advance, MethodString, Good, Emit, IsHeaderChar, Running, MatchToken, Matched;
    if i == 0 {
      assert v + s[..0] == v && s[..0] == [];
      MatchedNone(q);
    } else {
      TextRun(q, trace, n, v, s, i - 1);
      UptoStep(Live(q, Emit(trace, Data(Value, v)), n), s, i - 1);
      var m := Matched(q, s[..i - 1]);
      var q1 := Put(q, m, i - 1);
      MatchedRuns(q, s[..i - 1]);
      TextByte(q1, trace, n + i - 1, v + s[..i - 1], s[i - 1]);
      SameMatched(q1, m, s[i - 1]);
      MatchedSnoc(q, s, i);
      assert v + s[..i - 1] + [s[i - 1]] == v + s[..i];
    }
  }

  lemma MatchedSnoc(q: Parser, s: seq<byte>, i: nat)
    requires 1 <= i <= |s|
    ensures Matched(q, s[..i]) == MatchToken(Matched(q, s[..i - 1]), s[i - 1], Lower(s[i - 1]))
  {
    hide MatchToken;
    assert s[..i][..i - 1] == s[..i - 1];
  }

  lemma TextOver(q: GoodParser, trace: seq<Event>, n: nat, v: seq<byte>, s: seq<byte>)
    requires q.state == HeaderValue && Running(q.headerState) && Room(q, |s|) && LegalText(s)
    ensures var q1 := Put(q, Matched(q, s), |s|);
      && Good(q1)
      && Over(Live(q, Emit(trace, Data(Value, v)), n), s) == Live(q1, Emit(trace, Data(Value, v + s)), n + |s|)
  {
    hide Good, Emit, Advance, Upto, Matched, LegalText;
    TextRun(q, trace, n, v, s, |s|);
    assert s[..|s|] == s;
  }

  /** One line that continues a value: the matcher reads on from what it kept. */
  lemma Continued(q: GoodParser, trace: seq<Event>, n: nat, v: seq<byte>, c: Fold)
    requires q.state == HeaderValueLws && Running(q.headerState) && LegalFold(c, false) && Room(q, |Written(c)|)
    ensures var q1 := Put(q, Matched(Folded(q), c.text), |Written(c)|);
      && Good(q1)
      && Over(Live(q, Emit(trace, Data(Value, v)), n), Written(c))
         == Live(q1, Emit(trace, Data(Value, v + ([c.blank] + c.text))), n + |Written(c)|)
  {
    hide Advance, MethodString, Good, Emit, LegalText, Over, Ending, Running, Matched, Folded;
    var start, v1 := Live(q, Emit(trace, Data(Value, v)), n), v + [c.blank];
    OverAppend(start, [c.blank] + c.text, Ending(c.bare));
    OverAppend(start, [c.blank], c.text);
    OverOne(start, c.blank);
    TextContinues(q, start.trace, n, c.blank);
    EmitData(trace, Value, v, [c.blank]);
    var q1 := Put(q, Folded(q), 1).(state := HeaderValue);
    FoldedRuns(q);
    TextOver(q1, trace, n + 1, v1, c.text);
    SameMatchedAll(q1, Folded(q), c.text);
    assert v1 + c.text == v + ([c.blank] + c.text);
    ValueEnds(Put(q1, Matched(q1, c.text), |c.text|), trace, n + 1 + |c.text|, v1 + c.text, c.bare);
  }

  lemma {:induction false} AllContinued(q: GoodParser, trace: seq<Event>, n: nat, v: seq<byte>, cs: seq<Fold>)
    requires q.state == HeaderValueLws && Running(q.headerState) && Room(q, |AllWritten(cs)|)
    requires forall c :: c in cs ==> LegalFold(c, false)
    ensures var q1 := Put(q, MatchedLines(q, Texts(cs)), |AllWritten(cs)|);
      && Good(q1) && Running(q1.headerState)
      && Over(Live(q, Emit(trace, Data(Value, v)), n), AllWritten(cs))
         == Live(q1, Emit(trace, Data(Value, Extended(v, cs))), n + |AllWritten(cs)|)
  {
    hide Good, Emit, Over, LegalFold, Written, Running, Matched, Folded, MatchedLines, Texts;
    var start := Live(q, Emit(trace, Data(Value, v)), n);
    if cs == [] {
      OverNone(start);
      NoLines(q);
    } else {
      var before, c := cs[..|cs| - 1], cs[|cs| - 1];
      AllContinued(q, trace, n, v, before);
      var q1 := Put(q, MatchedLines(q, Texts(before)), |AllWritten(before)|);
      OverAppend(start, AllWritten(before), Written(c));
      Continued(q1, trace, n + |AllWritten(before)|, Extended(v, before), c);
      OneLineMore(q, q1, cs);
    }
  }

  lemma NoLines(q: Parser)
    ensures MatchedLines(q, Texts([])) == q
  {}

  /** The matcher over one line more. */
  lemma OneLineMore(q: Parser, q1: Parser, cs: seq<Fold>)
    requires cs != [] && Running(q.headerState)
    requires q1 == Put(q, MatchedLines(q, Texts(cs[..|cs| - 1])), |AllWritten(cs[..|cs| - 1])|)
    ensures var m := Matched(Folded(q1), cs[|cs| - 1].text);
      && Put(q1, m, |Written(cs[|cs| - 1])|) == Put(q, MatchedLines(q, Texts(cs)), |AllWritten(cs)|)
      && Running(m.headerState)
  {
    hide Written, Running, Matched, Folded;
    var before, text := cs[..|cs| - 1], cs[|cs| - 1].text;
    var m := MatchedLines(q, Texts(before));
    assert Texts(cs)[..|Texts(cs)| - 1] == Texts(before);
    SameFolded(q1, m);
    SameMatchedAll(Folded(q1), Folded(m), text);
    FoldedRuns(q1);
    MatchedRuns(Folded(q1), text);
  }

  lemma SameFolded(q: Parser, q1: Parser)
    requires SameMatch(q, q1)
    ensures SameMatch(Folded(q), Folded(q1))
  {}

  // ---- Lines that continue a length ------------------------------------------------------------

  lemma LengthContinued(q: GoodParser, trace: seq<Event>, n: nat, v: seq<byte>, c: Fold)
    requires q.state == HeaderValueLws && (q.headerState == ContentLengthNum || q.headerState == ContentLengthWs)
    requires LegalFold(c, true) && Room(q, |Written(c)|)
    ensures var q1 := q.(headerState := ContentLengthWs, index := 0, nread := q.nread + |Written(c)|);
      && Good(q1)
      && Over(Live(q, Emit(trace, Data(Value, v)), n), Written(c))
         == Live(q1, Emit(trace, Data(Value, v + ([c.blank] + c.text))), n + |Written(c)|)
  {
    hide Advance, MethodString, Good, Emit, LegalText, Over, Ending;
    var start, v1 := Live(q, Emit(trace, Data(Value, v)), n), v + [c.blank];
    OverAppend(start, [c.blank] + c.text, Ending(c.bare));
    OverAppend(start, [c.blank], c.text);
    OverOne(start, c.blank);
    LengthBlank(q, start.trace, n, c.blank);
    EmitData(trace, Value, v, [c.blank]);
    var q1 := q.(state := HeaderValue, headerState := ContentLengthWs, index := 0, nread := q.nread + 1);
    PaddingOver(q1, trace, n + 1, v1, c.text);
    assert v1 + c.text == v + ([c.blank] + c.text);
    ValueEnds(q1.(nread := q1.nread + |c.text|), trace, n + 1 + |c.text|, v1 + c.text, c.bare);
  }

  lemma LengthBlank(q: GoodParser, trace: seq<Event>, n: nat, b: byte)
    requires q.state == HeaderValueLws && (q.headerState == ContentLengthNum || q.headerState == ContentLengthWs)
    requires Blank(b) && Room(q, 1)
    ensures var q1 := q.(state := HeaderValue, headerState := ContentLengthWs, index := 0, nread := q.nread + 1);
      Good(q1) && Advance(Live(q, trace, n), b) == Live(q1, Emit(trace, Data(Value, [b])), n + 1)
  {
    hide Arm, Advance, MethodString, Emit, Good;
    LengthLineLeft(q, trace, n, b);
    LengthLineTaken(q.(state := HeaderValueStart, headerState := ContentLengthWs), trace, n, b);
  }

  /** The blank is read once more, as the beginning of a value. */
  lemma LengthLineLeft(q: GoodParser, trace: seq<Event>, n: nat, b: byte)
    requires q.state == HeaderValueLws && (q.headerState == ContentLengthNum || q.headerState == ContentLengthWs)
    requires Blank(b) && Room(q, 1)
    ensures var q0 := q.(state := HeaderValueStart, headerState := ContentLengthWs);
      Good(q0) && Advance(Live(q, trace, n), b) == Advance(Live(q0, trace, n), b)
  {
    hide Arm, Advance, MethodString, Good;
    LengthStartIsGood(q);
    LengthArmsAt(q.(nread := q.nread + 1), b);
    TakesOn(q, trace, n, b, q.(state := HeaderValueStart, headerState := ContentLengthWs));
  }

  lemma LengthLineTaken(q: GoodParser, trace: seq<Event>, n: nat, b: byte)
    requires q.state == HeaderValueStart && q.headerState == ContentLengthWs && Room(q, 1)
    ensures var q1 := q.(state := HeaderValue, index := 0, nread := q.nread + 1);
      Good(q1) && Advance(Live(q, trace, n), b) == Live(q1, Emit(trace, Data(Value, [b])), n + 1)
  {
    hide Arm, Advance, MethodString, Emit, Good;
    ValueStartArmAt(q.(nread := q.nread + 1), b);
    TakesData(q, trace, n, b, q.(state := HeaderValue, index := 0, nread := q.nread + 1), Value);
  }

  lemma LengthStartIsGood(q: GoodParser)
    requires q.state == HeaderValueLws && (q.headerState == ContentLengthNum || q.headerState == ContentLengthWs)
    ensures Good(q.(state := HeaderValueStart, headerState := ContentLengthWs))
  {}

  lemma LengthArmsAt(q: Parser, ch: byte)
    requires q.state == HeaderValueLws && (q.headerState == ContentLengthNum || q.headerState == ContentLengthWs) && Blank(ch)
    ensures Arm(q, ch) == Again(q.(state := HeaderValueStart, headerState := ContentLengthWs), NoMark, [])
  {
    hide Arm;
    ValueEdgeArmAt(q, ch);
  }

  /** What the matcher knows of a value that is continued. */
  function AtFold(q: Parser): Parser {
    if NotSizing(q.headerState) then Folded(q) else q.(headerState := ContentLengthWs, index := 0)
  }

  /**
    A blank behind any header line that has a value continues it and is part of it. Of the matcher only
    being behind a comma is kept, and a Content-Length takes the fold for a space.
  */
  lemma BlankContinues(q: GoodParser, trace: seq<Event>, n: nat, b: byte)
    requires q.state == HeaderValueLws && Blank(b) && Room(q, 1)
    ensures var q1 := Put(q, AtFold(q), 1).(state := HeaderValue);
      Good(q1) && Advance(Live(q, trace, n), b) == Live(q1, Emit(trace, Data(Value, [b])), n + 1)
  {
    hide Advance, Emit, Good, Folded;
    ValueBegun(q);
    if NotSizing(q.headerState) {
      TextContinues(q, trace, n, b);
    } else {
      LengthBlank(q, trace, n, b);
    }
  }

  lemma ValueBegun(q: GoodParser)
    requires q.state == HeaderValueLws
    ensures !WholeName(q.headerState)
  {}

  lemma {:induction false} LengthAllContinued(q: GoodParser, trace: seq<Event>, n: nat, v: seq<byte>, cs: seq<Fold>)
    requires q.state == HeaderValueLws && (q.headerState == ContentLengthNum || q.headerState == ContentLengthWs)
    requires Room(q, |AllWritten(cs)|) && forall c :: c in cs ==> LegalFold(c, true)
    ensures var r := Over(Live(q, Emit(trace, Data(Value, v)), n), AllWritten(cs));
      && Unsettled(q, r, trace, n, Extended(v, cs), |AllWritten(cs)|)
      && (r.q.headerState == ContentLengthNum || r.q.headerState == ContentLengthWs)
      && r.q.flags == q.flags && r.q.contentLength == q.contentLength
  {
    hide Good, Emit, Over, LegalFold, Written;
    var start := Live(q, Emit(trace, Data(Value, v)), n);
    if cs == [] {
      OverNone(start);
    } else {
      var before, c := cs[..|cs| - 1], cs[|cs| - 1];
      LengthAllContinued(q, trace, n, v, before);
      var r := Over(start, AllWritten(before));
      OverAppend(start, AllWritten(before), Written(c));
      LengthContinued(r.q, trace, r.n, Extended(v, before), c);
    }
  }

  // ---- Whole headers ---------------------------------------------------------------------------

  /** What a header comes to whose name has been read, as its lines settle it. */
  ghost predicate Settles(q: Parser, r: Run, trace: seq<Event>, n: nat, h: Header, k: nat) {
    && r.Live? && r.trace == Emit(trace, Data(Value, ValueOf(h))) && r.n == n + k
    && r.q == q.(state := HeaderFieldStart, headerState := r.q.headerState, index := r.q.index, flags := r.q.flags,
                 contentLength := r.q.contentLength, nread := q.nread + k)
    && LineFlags(ClassOf(q.headerState), q.flags, r.q.flags, h)
    && r.q.contentLength == if ClassOf(q.headerState) == Sizing then SizeIn(h.first) else q.contentLength
  }

  /** The flags behind a value and all that continues it. */
  lemma TrackedFlags(c: Class, f: Flags, q: Parser, h: Header)
    requires c != Sizing && h.first != [] && ValueTracked(c, f, q, h.first)
    ensures LineFlags(c, f, EndFlags(MatchedLines(q, Texts(h.folds))), h)
  {
    hide Begins, Matched, Heard, At;
    match c {
      case Connecting => ConnectionFlags(f, q, h);
      case Encoding => EncodingFlags(f, q, h);
      case _ =>
        ForgottenLines(q, Texts(h.folds));
        StartEnds(MatchedLines(q, Texts(h.folds)));
    }
  }

  lemma ConnectionFlags(f: Flags, q: Parser, h: Header)
    requires h.first != [] && ValueTracked(Connecting, f, q, h.first)
    ensures EndFlags(MatchedLines(q, Texts(h.folds))) == Heard(f, h.first, Texts(h.folds))
  {
    hide Matched, Heard, Begun, MatchedLines;
    var v, more := h.first, Texts(h.folds);
    SameLines(q, Matched(Begun(f, v[0]), v[1..]), more);
    HeardAll(f, v, more);
  }

  lemma EncodingFlags(f: Flags, q: Parser, h: Header)
    requires h.first != [] && ValueTracked(Encoding, f, q, h.first)
    ensures LineFlags(Encoding, f, EndFlags(MatchedLines(q, Texts(h.folds))), h)
  {
    hide Begins, Matched, At;
    if h.folds != [] {
      EncodingStates(h.first);
      hide EncodingAfter, MatchedLines;
      TextsNone(h.folds);
      ForgottenLines(q, Texts(h.folds));
      StartEnds(MatchedLines(q, Texts(h.folds)));
    } else {
      ConnectionWords(h.first);
    }
  }

  lemma TextsNone(cs: seq<Fold>)
    ensures Texts(cs) == [] <==> cs == []
  {}

  lemma TrackedRuns(c: Class, f: Flags, q: Parser, v: seq<byte>)
    requires c != Sizing && v != [] && ValueTracked(c, f, q, v)
    ensures Running(q.headerState)
  {
    hide Begins, Matched, At;
    if c == Connecting {
      BegunRuns(f, v[0]);
      MatchedRuns(Begun(f, v[0]), v[1..]);
    }
  }

  lemma BegunRuns(f: Flags, b: byte)
    ensures Running(Begun(f, b).headerState)
  {
    hide Begins;
  }

  /** A value of any class but a length, from where its first line ended. */
  lemma ValueSettles(q: GoodParser, r: Run, trace: seq<Event>, n: nat, h: Header, k: nat)
    requires ClassOf(q.headerState) != Sizing && h.first != [] && Unsettled(q, r, trace, n, h.first, k)
    requires Tracked(ClassOf(q.headerState), q, r.q, h.first)
    requires Room(q, k + |AllWritten(h.folds)|) && forall c :: c in h.folds ==> LegalFold(c, false)
    ensures Settles(q, Settled(Over(r, AllWritten(h.folds))), trace, n, h, k + |AllWritten(h.folds)|)
  {
    hide Good, Emit, Over, LegalFold, ValueTracked, Running, LineFlags, EndFlags, AllWritten, Texts, Extended;
    TrackedRuns(ClassOf(q.headerState), q.flags, r.q, h.first);
    AllContinued(r.q, trace, r.n, h.first, h.folds);
    TrackedFlags(ClassOf(q.headerState), q.flags, r.q, h);
    SameFlags(Put(r.q, MatchedLines(r.q, Texts(h.folds)), |AllWritten(h.folds)|), MatchedLines(r.q, Texts(h.folds)));
  }

  lemma SameFlags(q: Parser, q1: Parser)
    requires SameMatch(q, q1)
    ensures EndFlags(q) == EndFlags(q1)
  {}

  lemma LengthSettles(q: GoodParser, r: Run, trace: seq<Event>, n: nat, h: Header, k: nat)
    requires ClassOf(q.headerState) == Sizing && Unsettled(q, r, trace, n, h.first, k) && Tracked(Sizing, q, r.q, h.first)
    requires Room(q, k + |AllWritten(h.folds)|) && forall c :: c in h.folds ==> LegalFold(c, true)
    ensures Settles(q, Settled(Over(r, AllWritten(h.folds))), trace, n, h, k + |AllWritten(h.folds)|)
  {
    hide Good, Emit, Over, LegalFold, SizeIn, AllWritten, Extended;
    LengthAllContinued(r.q, trace, r.n, h.first, h.folds);
    LengthFlagsEnd(Over(r, AllWritten(h.folds)).q);
  }

  lemma LengthFlagsEnd(q: Parser)
    requires q.headerState == ContentLengthNum || q.headerState == ContentLengthWs
    ensures EndFlags(q) == q.flags
  {}

  /** A header without a value. */
  lemma EmptySettles(q: GoodParser, trace: seq<Event>, n: nat, h: Header)
    requires q.state == HeaderValueDiscardWs && ClassOf(q.headerState) != Sizing && h.first == [] && h.folds == []
    requires Room(q, |Ending(h.bare)|)
    ensures Settles(q, Settled(Over(Live(q, trace, n), Ending(h.bare))), trace, n, h, |Ending(h.bare)|)
  {
    hide MethodString, Emit, Good, EndFlags, Over;
    EmptyRead(q, trace, n, h.bare);
    NameStateAt(q);
    EmptyFlags(q.(nread := q.nread + |Ending(h.bare)|, state := HeaderValueDiscardLws), h);
  }

  lemma EmptyFlags(q: Parser, h: Header)
    requires NameState(q.headerState) && ClassOf(q.headerState) != Sizing && h.first == []
    ensures LineFlags(ClassOf(q.headerState), q.flags, EndFlags(q), h)
  {
    ConnectionWords([0]);
  }

  /** What a whole header comes to. */
  ghost predicate LineRead(q: Parser, r: Run, trace: seq<Event>, n: nat, h: Header) {
    && r.Live? && r.trace == Emit(Emit(trace, Data(Field, h.name)), Data(Value, ValueOf(h))) && r.n == n + |Line(h)|
    && r.q == q.(state := HeaderFieldStart, headerState := r.q.headerState, index := r.q.index, flags := r.q.flags,
                 contentLength := r.q.contentLength, nread := q.nread + |Line(h)|)
    && LineFlags(ClassOfName(h.name), q.flags, r.q.flags, h)
    && r.q.contentLength == if ClassOfName(h.name) == Sizing then SizeIn(h.first) else q.contentLength
  }

  /** The name with its colon, and the white space behind it. */
  lemma NameAndSpace(q: GoodParser, trace: seq<Event>, n: nat, h: Header) returns (q2: GoodParser)
    requires q.state == HeaderFieldStart && h.name != [] && IsToken(h.name) && LegalSpace(h.space)
    requires Room(q, |h.name| + 1 + |h.space|)
    ensures var k := |h.name| + 1 + |h.space|;
      && Over(Live(q, trace, n), h.name + [COLON] + h.space) == Live(q2, Emit(trace, Data(Field, h.name)), n + k)
      && q2 == q.(state := HeaderValueDiscardWs, headerState := q2.headerState, index := q2.index, nread := q.nread + k)
      && ClassOf(q2.headerState) == ClassOfName(h.name)
  {
    hide MethodString, Emit, Good, NameAfter, Over, LegalSpace, IsToken;
    var start := Live(q, trace, n);
    NameRead(q, trace, n, h.name);
    OverAppend(start, h.name + [COLON], h.space);
    var r := Over(start, h.name + [COLON]);
    SpaceOver(r.q, r.trace, r.n, h.space);
    q2 := r.q.(nread := r.q.nread + |h.space|);
  }

  /** The lines of a header behind its name and the white space. */
  lemma Rest(q: GoodParser, trace: seq<Event>, n: nat, h: Header)
    requires q.state == HeaderValueDiscardWs && ClassOf(q.headerState) == ClassOfName(h.name)
    requires Acceptable(h, q.flags.contentLength) && Room(q, |h.first| + |Ending(h.bare)| + |AllWritten(h.folds)|)
    ensures var k := |h.first| + |Ending(h.bare)| + |AllWritten(h.folds)|;
      Settles(q, Settled(Over(Over(Over(Live(q, trace, n), h.first), Ending(h.bare)), AllWritten(h.folds))), trace, n, h, k)
  {
    hide MethodString, Emit, Good, Over, LegalSpace, IsToken, LegalFold, LegalLength, LegalValue, ClassOfName, Settled, Settles,
      Tracked, Unsettled, Ending;
    var start, k := Live(q, trace, n), |h.first| + |Ending(h.bare)|;
    var r := Over(Over(start, h.first), Ending(h.bare));
    if ClassOfName(h.name) == Sizing {
      ClassSizing(q.headerState);
      LengthFirstLine(q, trace, n, h.first, h.bare);
      LengthSettles(q, r, trace, n, h, k);
    } else if h.first == [] {
      OverNone(start);
      OverNone(r);
      EmptySettles(q, trace, n, h);
    } else {
      PlainFirst(q, trace, n, h.first, h.bare);
      FoldsAnyway(h);
      ValueSettles(q, r, trace, n, h, k);
    }
  }

  lemma FoldsAnyway(h: Header)
    requires forall c :: c in h.folds ==> LegalFold(c, false) || LegalFold(c, true)
    ensures forall c :: c in h.folds ==> LegalFold(c, false)
  {}

  /**
    A header, folded or not, delivers its name and its value and sets the flags it should. At a fold the
    matchers keep only that they are behind a comma of a connection list: there the list goes on, and
    anywhere else nothing is recognised any more, `chunked` neither.
  */
  lemma HeaderLine(q: GoodParser, trace: seq<Event>, n: nat, h: Header)
    requires q.state == HeaderFieldStart && Acceptable(h, q.flags.contentLength) && Room(q, |Line(h)|)
    ensures LineRead(q, Settled(Over(Live(q, trace, n), Line(h))), trace, n, h)
  {
    hide MethodString, Emit, Settled, Good, LineFlags, LegalValue, LegalLength, LegalFold, LegalSpace, IsToken, ClassOfName, Ending, Over,
      AllWritten, Extended, SizeIn;
    var start := Live(q, trace, n);
    LinePieces(start, h);
    var q2 := NameAndSpace(q, trace, n, h);
    Rest(q2, Emit(trace, Data(Field, h.name)), n + |h.name| + 1 + |h.space|, h);
  }

  lemma LinePieces(r: Run, h: Header)
    ensures Over(r, Line(h))
      == Over(Over(Over(Over(r, h.name + [COLON] + h.space), h.first), Ending(h.bare)), AllWritten(h.folds))
  {
    hide Advance, Over;
    var a := h.name + [COLON] + h.space;
    OverAppend(r, FirstWritten(h), AllWritten(h.folds));
    OverAppend(r, a + h.first, Ending(h.bare));
    OverAppend(r, a, h.first);
  }
}
