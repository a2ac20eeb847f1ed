/**
  The way back from what the parser reports to what was written, first part: heads that are reported
  complete are counted, they fit into the header budget, and they begin with a request line.
*/
module HttpReported {
  import opened Bytes
  import opened HttpTypes
  import opened HttpStep
  import opened HttpRun
  import opened HttpFeed
  import opened HttpNames
  import opened HttpHeaders
  import opened HttpRequest

  // ---- What was reported -----------------------------------------------------------------------

  /** A report that a head or a message is complete. */
  predicate Tells(e: Event) {
    e.HeadersComplete? || e.MessageComplete?
  }

  /** How many there were. */
  function Reports(trace: seq<Event>): nat {
    if trace == [] then 0 else Reports(trace[..|trace| - 1]) + if Tells(trace[|trace| - 1]) then 1 else 0
  }

  lemma ReportsSnoc(trace: seq<Event>, e: Event)
    ensures Reports(trace + [e]) == Reports(trace) + if Tells(e) then 1 else 0
  {
    assert (trace + [e])[..|trace|] == trace;
  }

  lemma ReportsEmit(trace: seq<Event>, e: Event)
    ensures Reports(Emit(trace, e)) == Reports(trace) + if Tells(e) then 1 else 0
  {
    if Emit(trace, e) == trace + [e] {
      ReportsSnoc(trace, e);
    } else {
      var before := trace[..|trace| - 1];
      ReportsSnoc(before, Data(e.kind, trace[|trace| - 1].bytes + e.bytes));
    }
  }

  lemma {:induction false} ReportsEmitAll(trace: seq<Event>, events: seq<Event>)
    ensures Reports(EmitAll(trace, events)) == Reports(trace) + Reports(events)
  {
    hide Emit;
    if events != [] {
      ReportsEmitAll(trace, events[..|events| - 1]);
      ReportsEmit(EmitAll(trace, events[..|events| - 1]), events[|events| - 1]);
    }
  }

  lemma {:induction false} ReportsAppend(a: seq<Event>, b: seq<Event>)
    ensures Reports(a + b) == Reports(a) + Reports(b)
  {
    if b == [] {
      assert a + b == a;
    } else {
      assert a + b == a + b[..|b| - 1] + [b[|b| - 1]];
      ReportsSnoc(a + b[..|b| - 1], b[|b| - 1]);
      ReportsAppend(a, b[..|b| - 1]);
    }
  }

  /** The run has not failed, and there were more than `k` reports. */
  ghost predicate Reported(r: Run, k: nat) {
    !r.Failed? && Reports(r.trace) > k
  }

  /** A run that is to report something goes on with a byte that is not refused. */
  lemma Peel(q: GoodParser, trace: seq<Event>, n: nat, s: seq<byte>, k: nat)
    requires Reports(trace) <= k && Reported(Over(Live(q, trace, n), s), k)
    ensures s != [] && Over(Live(q, trace, n), s) == Over(Advance(Live(q, trace, n), s[0]), s[1..])
    ensures Advance(Live(q, trace, n), s[0]) != Failed
    ensures ParsingHeader(q.state) ==> Room(q, 1)
  {
    hide Advance, Good;
    var r := Live(q, trace, n);
    if s == [] {
      OverNone(r);
    } else {
      assert s == [s[0]] + s[1..];
      OverAppend(r, [s[0]], s[1..]);
      OverOne(r, s[0]);
      if Advance(r, s[0]) == Failed {
        FailedStays(s[1..]);
      }
      if ParsingHeader(q.state) && !Room(q, 1) {
        NoRoom(r, s[0]);
      }
    }
  }

  /** A run that is to report something takes any part of its input without failing. */
  lemma PartTaken(r: Run, a: seq<byte>, b: seq<byte>, k: nat)
    requires Reported(Over(r, a + b), k)
    ensures Over(r, a) != Failed && Reported(Over(Over(r, a), b), k)
  {
    hide Advance, Over;
    OverAppend(r, a, b);
    if Over(r, a) == Failed {
      FailedStays(b);
    }
  }

  // ---- Within the budget -----------------------------------------------------------------------

  /** Between the start of a request and the end of its headers, or in trailers. */
  predicate InHead(q: Parser) {
    ParsingHeader(q.state) && !ChunkState(q.state) && q.state != Dead && q.state != HeadersDone
  }

  /** An arm goes on with the headers, or to the end of the message, or reports them. */
  predicate StaysInHead(q: Parser, a: Act) {
    match a
    case Next(q1, _, notes) => InHead(q1) && q1.nread == q.nread && Reports(notes) == 0
    case Again(q1, _, notes) =>
      Reports(notes) > 0 || q1.state == MessageDone || (InHead(q1) && q1.nread == q.nread && Reports(notes) == 0)
    case Leave(_, _) => false
    case Bad(_) => true
  }

  lemma FewNotes(e: Event)
    ensures Reports([]) == 0 && Reports([e]) == if Tells(e) then 1 else 0
  {
    assert [e][..0] == [];
  }

  lemma LineStays(q: Parser, ch: byte)
    requires InHead(q) && (q.state == StartReq || q.state == ReqMethod || q.state == ReqSpacesBeforeUrl)
    ensures StaysInHead(q, Arm(q, ch))
  {
    hide Arm, StartReqArm, MethodArm, UrlStartArm, Reports, StaysInHead;
    if q.state == StartReq {
      StartArmAt(q, ch);
      StartStays(q, ch);
    } else if q.state == ReqMethod {
      MethodArmAt(q, ch);
      MethodStays(q, ch);
    } else {
      UrlStartArmAt(q, ch);
      UrlStartStays(q, ch);
    }
  }

  lemma StartArmAt(q: Parser, ch: byte)
    requires q.state == StartReq
    ensures Arm(q, ch) == StartReqArm(q, ch)
  {
    hide StartReqArm;
  }

  lemma StartStays(q: Parser, ch: byte)
    requires q.state == StartReq
    ensures StaysInHead(q, StartReqArm(q, ch))
  {
    hide FirstMethod, Reports;
    FewNotes(MessageBegin);
  }

  lemma MethodStays(q: Parser, ch: byte)
    requires InHead(q) && q.state == ReqMethod
    ensures StaysInHead(q, MethodArm(q, ch))
  {
    hide MethodString, SwitchMethod, Reports;
    FewNotes(MessageBegin);
  }

  lemma UrlStartStays(q: Parser, ch: byte)
    requires InHead(q) && q.state == ReqSpacesBeforeUrl
    ensures StaysInHead(q, UrlStartArm(q, ch))
  {
    hide ParseUrlChar, Reports;
    FewNotes(MessageBegin);
  }

  lemma UrlStays(q: Parser, ch: byte)
    requires InHead(q) && UrlState(q.state)
    ensures StaysInHead(q, Arm(q, ch))
  {
    hide Arm, ParseUrlChar;
    UrlArmAt(q, ch);
    FewNotes(MessageBegin);
  }

  lemma VersionStays(q: Parser, ch: byte)
    requires InHead(q) && VersionState(q.state)
    ensures StaysInHead(q, Arm(q, ch))
  {
    hide Arm, VersionArm, Reports;
    VersionArmAt(q, ch);
    VersionGoes(q, ch);
    FewNotes(MessageBegin);
  }

  lemma VersionGoes(q: Parser, ch: byte)
    requires VersionState(q.state)
    ensures var a := VersionArm(q, ch);
      a.Bad? || (a.Next? && a.notes == [] && a.q == q.(state := a.q.state, major := a.q.major, minor := a.q.minor)
                 && (VersionState(a.q.state) || a.q.state == HeaderFieldStart))
  {}

  lemma NameStays(q: Parser, ch: byte)
    requires InHead(q) && (q.state == HeaderFieldStart || q.state == HeaderField)
    ensures StaysInHead(q, Arm(q, ch))
  {
    hide Arm, TokenOf, MatchName;
    FewNotes(MessageBegin);
    if q.state == HeaderField {
      FieldArmAt(q, ch);
      MatchNameShape(q, TokenOf(ch), ch);
    } else {
      FieldStartArmAt(q, ch);
    }
  }

  lemma TokenShape(q: Parser, ch: byte, c: byte)
    ensures var q1 := MatchToken(q, ch, c);
      q1 == q.(headerState := q1.headerState, index := q1.index, flags := q1.flags)
  {
    hide At, TokenOf;
  }

  lemma ValueStays(q: Parser, ch: byte)
    requires InHead(q) && q.state == HeaderValue
    ensures StaysInHead(q, Arm(q, ch))
  {
    hide Arm, MatchToken, IsHeaderChar;
    ValueArmAt(q, ch);
    FewNotes(MessageBegin);
    TokenShape(q, ch, Lower(ch));
  }

  lemma EdgeStays(q: Parser, ch: byte)
    requires InHead(q) && (q.state == HeaderValueDiscardWs || q.state == HeaderValueDiscardWsAlmostDone
      || q.state == HeaderValueDiscardLws || q.state == HeaderValueLws || q.state == HeaderAlmostDone)
    ensures StaysInHead(q, Arm(q, ch))
  {
    hide Arm, ValueStartArm, EndFlags, Reports, ValueEdgeArm, StaysInHead;
    ValueEdgeArmAt(q, ch);
    if q.state == HeaderValueDiscardWs && ch != SP && ch != HT && ch != CR && ch != LF {
      ValueStartArmAt(q, ch);
      BeginStays(q, ch);
    } else {
      EdgeGoes(q, ch);
    }
  }

  lemma EdgeGoes(q: Parser, ch: byte)
    requires InHead(q) && (q.state == HeaderValueDiscardWsAlmostDone
      || q.state == HeaderValueDiscardLws || q.state == HeaderValueLws || q.state == HeaderAlmostDone
      || (q.state == HeaderValueDiscardWs && (ch == SP || ch == HT || ch == CR || ch == LF)))
    ensures StaysInHead(q, ValueEdgeArm(q, ch))
  {
    hide ValueStartArm, EndFlags, Reports, InHead, StaysInHead;
    FewNotes(MessageBegin);
    EdgeShape(q, ch);
    OnInHead(q, ValueEdgeArm(q, ch));
  }

  /** White space and line ends around a value make no callback that tells of a head. */
  lemma EdgeShape(q: Parser, ch: byte)
    requires q.state == HeaderValueDiscardWsAlmostDone
      || q.state == HeaderValueDiscardLws || q.state == HeaderValueLws || q.state == HeaderAlmostDone
      || (q.state == HeaderValueDiscardWs && (ch == SP || ch == HT || ch == CR || ch == LF))
    ensures InHeaders(q.state)
    ensures var a := ValueEdgeArm(q, ch);
      a.Bad? || ((a.Next? || a.Again?) && a.notes == [] && InHeaders(a.q.state)
        && a.q == q.(state := a.q.state, headerState := a.q.headerState, flags := a.q.flags))
  {
    hide ValueStartArm, EndFlags;
  }

  predicate InHeaders(s: State) {
    s == HeaderFieldStart || s == HeaderField || s == HeaderValueDiscardWs || s == HeaderValueDiscardWsAlmostDone
    || s == HeaderValueDiscardLws || s == HeaderValueStart || s == HeaderValue || s == HeaderValueLws || s == HeaderAlmostDone
  }

  lemma OnInHead(q: Parser, a: Act)
    requires InHead(q) && InHeaders(q.state)
    requires a.Bad? || ((a.Next? || a.Again?) && Reports(a.notes) == 0 && InHeaders(a.q.state) && a.q.nread == q.nread)
    ensures StaysInHead(q, a)
  {
    hide Reports;
  }

  lemma BeginStays(q: Parser, ch: byte)
    ensures StaysInHead(q, ValueStartArm(q, ch))
  {
    hide Reports;
    FewNotes(MessageBegin);
  }

  lemma BeginArmStays(q: Parser, ch: byte)
    requires InHead(q) && q.state == HeaderValueStart
    ensures StaysInHead(q, Arm(q, ch))
  {
    hide Arm, ValueStartArm;
    ValueStartArmAt(q, ch);
    BeginStays(q, ch);
  }

  lemma EndStays(q: Parser, ch: byte)
    requires InHead(q) && q.state == HeadersAlmostDone
    ensures StaysInHead(q, Arm(q, ch))
  {
    hide Arm, Reports;
    HeadersAlmostDoneArmAt(q, ch);
    var upgrade := (q.flags.upgrade && q.flags.connectionUpgrade) || q.meth == CONNECT;
    FewNotes(HeadersComplete(q.meth, q.major, q.minor, upgrade, SizingOf(q.flags.chunked, q.contentLength)));
  }

  lemma ArmStays(q: Parser, ch: byte)
    requires InHead(q)
    ensures StaysInHead(q, Arm(q, ch))
  {
    hide Arm, StaysInHead;
    if q.state == StartReq || q.state == ReqMethod || q.state == ReqSpacesBeforeUrl {
      LineStays(q, ch);
    } else if UrlState(q.state) {
      UrlStays(q, ch);
    } else if VersionState(q.state) {
      VersionStays(q, ch);
    } else if q.state == HeaderFieldStart || q.state == HeaderField {
      NameStays(q, ch);
    } else if q.state == HeaderValue {
      ValueStays(q, ch);
    } else if q.state == HeaderValueStart {
      BeginArmStays(q, ch);
    } else if q.state == HeadersAlmostDone {
      EndStays(q, ch);
    } else {
      EdgeStays(q, ch);
    }
  }

  /** One byte goes on with the head, or reports it. */
  predicate StepInHead(q: Parser, s: Step) {
    match s
    case Went(q1, events) => Reports(events) > 0 || (InHead(q1) && q1.nread == q.nread)
    case Quit(_, events) => Reports(events) > 0
    case Erred(_) => true
  }

  lemma OwnNotes(mark: MarkAct, ch: byte, notes: seq<Event>)
    ensures Reports(OwnData(mark, ch) + notes) == Reports(notes)
  {
    ReportsAppend(OwnData(mark, ch), notes);
    if OwnData(mark, ch) != [] {
      FewNotes(OwnData(mark, ch)[0]);
    }
  }

  lemma {:induction false} ExecStays(q: Parser, ch: byte)
    requires AtSwitch(q) && InHead(q)
    ensures BodyState(q.state) ==> q.contentLength > 0
    ensures StepInHead(q, Exec(q, ch))
    decreases Rank(q.state)
  {
    hide Arm, AtSwitch, InHead, MarksAsStates, MethodString, Good, NewMessage;
    LengthsAtSwitch(q);
    ArmStays(q, ch);
    ArmKeeps(q, ch);
    match Arm(q, ch)
    case Next(q1, mark, notes) =>
    case Again(q1, mark, notes) =>
      OwnNotes(mark, ch, notes);
      GoodIfNotBad(q, Arm(q, ch));
      GoodAtSwitch(q1);
      LengthsAtSwitch(q1);
      if q1.state == MessageDone {
        MessageDoneExec(q1, ch);
        FewNotes(MessageComplete);
      } else if Reports(notes) == 0 {
        ExecStays(q1, ch);
      }
      if !Exec(q1, ch).Erred? {
        ReportsAppend(OwnData(mark, ch) + notes, Exec(q1, ch).events);
      }
    case Leave(q1, notes) =>
    case Bad(_) =>
  }

  lemma GoodIfNotBad(q: Parser, a: Act)
    requires GoodAct(q, a) && !a.Bad?
    ensures Good(a.q)
  {}

  /** Where a run from inside a head is behind `i` bytes: the head was reported, or every byte was counted. */
  ghost predicate CountedOn(q: Parser, k: nat, r: Run, i: nat) {
    r.Failed? || Reports(r.trace) > k || (r.Live? && Reports(r.trace) == k && InHead(r.q) && r.q.nread == q.nread + i)
  }

  lemma {:induction false} CountsAll(q: GoodParser, trace: seq<Event>, n: nat, s: seq<byte>, i: nat, k: nat)
    requires InHead(q) && i <= |s| && Reports(trace) == k
    ensures CountedOn(q, k, Upto(Live(q, trace, n), s, i), i)
  {
    hide Advance, InHead, Good;
    var start := Live(q, trace, n);
    if i > 0 {
      CountsAll(q, trace, n, s, i - 1, k);
      UptoStep(start, s, i - 1);
      CountsOne(q, Upto(start, s, i - 1), s[i - 1], i - 1, k);
    }
  }

  lemma CountsOne(q: Parser, r: Run, ch: byte, i: nat, k: nat)
    requires CountedOn(q, k, r, i)
    ensures CountedOn(q, k, Advance(r, ch), i + 1)
  {
    hide Exec, InHead, Good, EmitAll, MethodString, Reports, AtSwitch;
    if r.Live? && Advance(r, ch) != Failed {
      GoodAtSwitch(r.q);
      LengthsAtSwitch(r.q);
      ReportsEmitAll(r.trace, StepByte(r.q, ch).events);
      if Reports(r.trace) <= k {
        CountedInHead(r.q);
        CountKeeps(r.q);
        ExecStays(Counted(r.q), ch);
      }
    }
  }

  lemma HeadInHeader(q: Parser)
    ensures InHead(q) ==> ParsingHeader(q.state)
  {}

  lemma CountedInHead(q: Parser)
    requires InHead(q)
    ensures ParsingHeader(q.state) && InHead(Counted(q)) && Counted(q) == q.(nread := q.nread + 1)
  {}

  /** A head that is reported fits into what is left of the budget. */
  lemma Fits(q: GoodParser, trace: seq<Event>, n: nat, s: seq<byte>, k: nat)
    requires InHead(q) && Reports(trace) == k && Reported(Over(Live(q, trace, n), s), k)
    ensures exists j :: 0 <= j <= |s| && Room(q, j) && Reported(Over(Live(q, trace, n), s[..j]), k)
  {
    hide Advance, InHead, Good;
    var start := Live(q, trace, n);
    if Room(q, |s|) {
      assert s[..|s|] == s;
    } else {
      RoomNow(q);
      var j := MAX_HEADER_SIZE - q.nread;
      CountsAll(q, trace, n, s[..j], j, k);
      assert s == s[..j] + s[j..];
      PartTaken(start, s[..j], s[j..], k);
      var r := Over(start, s[..j]);
      if Reports(r.trace) <= k {
        HeadInHeader(r.q);
        Peel(r.q, r.trace, r.n, s[j..], k);
      }
    }
  }

  lemma RoomNow(q: GoodParser)
    ensures Room(q, 0)
  {
    hide MethodString;
  }
}
