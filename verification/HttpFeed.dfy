/** Feeding bytes to a live run, one arm at a time: the vocabulary of the results about whole tokens. */
module HttpFeed {
  import opened Bytes
  import opened HttpTypes
  import opened HttpStep
  import opened HttpRun

  // ---- Which arm a state takes -----------------------------------------------------------------

  lemma MethodArmAt(q: Parser, ch: byte)
    requires q.state == ReqMethod
    ensures Arm(q, ch) == MethodArm(q, ch)
  {
    hide MethodArm;
  }

  lemma UrlStartArmAt(q: Parser, ch: byte)
    requires q.state == ReqSpacesBeforeUrl
    ensures Arm(q, ch) == UrlStartArm(q, ch)
  {
    hide UrlStartArm;
  }

  lemma UrlArmAt(q: Parser, ch: byte)
    requires UrlState(q.state)
    ensures Arm(q, ch) == UrlArm(q, ch)
  {
    hide UrlArm;
  }

  lemma VersionArmAt(q: Parser, ch: byte)
    requires VersionState(q.state)
    ensures Arm(q, ch) == VersionArm(q, ch)
  {
    hide VersionArm;
  }

  lemma FieldStartArmAt(q: Parser, ch: byte)
    requires q.state == HeaderFieldStart
    ensures Arm(q, ch) == FieldStartArm(q, ch)
  {
    hide FieldStartArm;
  }

  lemma FieldArmAt(q: Parser, ch: byte)
    requires q.state == HeaderField
    ensures Arm(q, ch) == FieldArm(q, ch)
  {
    hide FieldArm;
  }

  lemma ValueStartArmAt(q: Parser, ch: byte)
    requires q.state == HeaderValueStart || (q.state == HeaderValueDiscardWs && ch != SP && ch != HT && ch != CR && ch != LF)
    ensures Arm(q, ch) == ValueStartArm(q, ch)
  {
    hide ValueStartArm;
  }

  lemma ValueArmAt(q: Parser, ch: byte)
    requires q.state == HeaderValue
    ensures Arm(q, ch) == ValueArm(q, ch)
  {
    hide ValueArm;
  }

  lemma ValueEdgeArmAt(q: Parser, ch: byte)
    requires q.state == HeaderValueDiscardWs || q.state == HeaderValueDiscardWsAlmostDone
      || q.state == HeaderValueDiscardLws || q.state == HeaderValueLws || q.state == HeaderAlmostDone
    ensures Arm(q, ch) == ValueEdgeArm(q, ch)
  {
    hide ValueEdgeArm;
  }

  lemma HeadersAlmostDoneArmAt(q: Parser, ch: byte)
    requires q.state == HeadersAlmostDone
    ensures Arm(q, ch) == HeadersAlmostDoneArm(q, ch)
  {
    hide HeadersAlmostDoneArm;
  }

  lemma HeadersDoneArmAt(q: Parser, ch: byte)
    requires q.state == HeadersDone
    ensures Arm(q, ch) == HeadersDoneArm(q, ch)
  {
    hide HeadersDoneArm;
  }

  lemma ChunkArmAt(q: Parser, ch: byte)
    requires ChunkState(q.state)
    ensures Arm(q, ch) == ChunkArm(q, ch)
  {
    hide ChunkArm;
  }

  lemma BodyArmAt(q: Parser, ch: byte)
    requires BodyState(q.state) && q.contentLength > 0
    ensures Arm(q, ch) == BodyArm(q)
  {
    hide BodyArm;
  }

  lemma MessageDoneArmAt(q: Parser, ch: byte)
    requires q.state == MessageDone
    ensures Arm(q, ch) == MessageDoneArm(q)
  {
    hide MessageDoneArm;
  }

  // ---- Feeding ---------------------------------------------------------------------------------

  lemma OverNone(r: Run)
    ensures Over(r, []) == r
  {}

  lemma OverOne(r: Run, ch: byte)
    ensures Over(r, [ch]) == Advance(r, ch)
  {
    assert Upto(r, [ch], 0) == r;
  }

  lemma OverMore(r: Run, data: seq<byte>, ch: byte)
    ensures Over(r, data + [ch]) == Advance(Over(r, data), ch)
  {
    hide Advance;
    OverAppend(r, data, [ch]);
    OverOne(Over(r, data), ch);
  }

  lemma AdvanceFailed(ch: byte)
    ensures Advance(Failed, ch) == Failed
  {}

  lemma FailedStays(data: seq<byte>)
    ensures Over(Failed, data) == Failed
  {
    Ended(Failed, data, 0, |data|);
  }

  /** There is room for `k` more header bytes. */
  predicate Room(q: Parser, k: nat) {
    q.nread + k <= MAX_HEADER_SIZE
  }

  /** A header byte that an arm takes. */
  lemma Takes(q: GoodParser, trace: seq<Event>, n: nat, ch: byte, q1: Parser, mark: MarkAct, notes: seq<Event>)
    requires ParsingHeader(q.state) && Room(q, 1)
    requires Arm(q.(nread := q.nread + 1), ch) == Next(q1, mark, notes)
    ensures Good(q1) && Advance(Live(q, trace, n), ch) == Live(q1, EmitAll(trace, OwnData(mark, ch) + notes), n + 1)
  {
    hide Arm, EmitAll, MethodString, MarksAsStates;
    CountKeeps(q);
    ArmKeeps(Counted(q), ch);
  }

  /** A header byte that an arm rejects. */
  lemma Refuses(q: GoodParser, trace: seq<Event>, n: nat, ch: byte)
    requires ParsingHeader(q.state) && Room(q, 1) && Arm(q.(nread := q.nread + 1), ch).Bad?
    ensures Advance(Live(q, trace, n), ch) == Failed
  {
    hide Arm, EmitAll, MethodString;
    CountKeeps(q);
  }

  /** A header byte behind which another protocol takes over. */
  lemma Leaves(q: GoodParser, trace: seq<Event>, n: nat, ch: byte, q1: Parser, notes: seq<Event>)
    requires ParsingHeader(q.state) && Room(q, 1)
    requires Arm(q.(nread := q.nread + 1), ch) == Leave(q1, notes)
    ensures Good(q1) && Advance(Live(q, trace, n), ch) == Left(q1, EmitAll(trace, notes), n + 1)
  {
    hide Arm, EmitAll, MethodString, MarksAsStates;
    CountKeeps(q);
    ArmKeeps(Counted(q), ch);
  }

  /** A header byte that ends something and tells so. */
  lemma TakesNoting(q: GoodParser, trace: seq<Event>, n: nat, ch: byte, q1: Parser, e: Event)
    requires ParsingHeader(q.state) && Room(q, 1)
    requires Arm(q.(nread := q.nread + 1), ch) == Next(q1, NoMark, [e])
    ensures Good(q1) && Advance(Live(q, trace, n), ch) == Live(q1, Emit(trace, e), n + 1)
  {
    hide Arm, MethodString, Advance, Good, Emit;
    Takes(q, trace, n, ch, q1, NoMark, [e]);
    assert OwnData(NoMark, ch) + [e] == [e];
    EmitAllOne(trace, e);
  }

  /** A header byte that makes no callback. */
  lemma TakesQuietly(q: GoodParser, trace: seq<Event>, n: nat, ch: byte, q1: Parser)
    requires ParsingHeader(q.state) && Room(q, 1)
    requires Arm(q.(nread := q.nread + 1), ch) == Next(q1, NoMark, [])
    ensures Good(q1) && Advance(Live(q, trace, n), ch) == Live(q1, trace, n + 1)
  {
    hide Arm, MethodString, Advance, Good;
    Takes(q, trace, n, ch, q1, NoMark, []);
    assert OwnData(NoMark, ch) + [] == [];
  }

  /** A header byte behind a mark. */
  lemma TakesData(q: GoodParser, trace: seq<Event>, n: nat, ch: byte, q1: Parser, k: Kind)
    requires ParsingHeader(q.state) && Room(q, 1)
    requires Arm(q.(nread := q.nread + 1), ch) == Next(q1, Keep(k), []) || Arm(q.(nread := q.nread + 1), ch) == Next(q1, Mark(k), [])
    ensures Good(q1) && Advance(Live(q, trace, n), ch) == Live(q1, Emit(trace, Data(k, [ch])), n + 1)
  {
    hide Arm, MethodString, Advance, Good, Emit;
    var mark := Arm(q.(nread := q.nread + 1), ch).mark;
    Takes(q, trace, n, ch, q1, mark, []);
    assert OwnData(mark, ch) + [] == [Data(k, [ch])];
    EmitAllOne(trace, Data(k, [ch]));
  }

  /** A header byte that ends some data. */
  lemma TakesEnd(q: GoodParser, trace: seq<Event>, n: nat, ch: byte, q1: Parser, k: Kind)
    requires ParsingHeader(q.state) && Room(q, 1)
    requires Arm(q.(nread := q.nread + 1), ch) == Next(q1, Flush(k), [])
    ensures Good(q1) && Advance(Live(q, trace, n), ch) == Live(q1, Emit(trace, Data(k, [])), n + 1)
  {
    hide Arm, MethodString, Advance, Good, Emit;
    Takes(q, trace, n, ch, q1, Flush(k), []);
    assert OwnData(Flush(k), ch) + [] == [Data(k, [])];
    EmitAllOne(trace, Data(k, []));
  }

  /** Gluing on an empty slice changes nothing when there is data of that kind at the end. */
  lemma EmitEnd(trace: seq<Event>, k: Kind, bytes: seq<byte>)
    ensures Emit(Emit(trace, Data(k, bytes)), Data(k, [])) == Emit(trace, Data(k, bytes))
  {
    EmitData(trace, k, bytes, []);
    assert bytes + [] == bytes;
  }

  /** A byte that re-executes into a state is a byte fed to that state. */
  lemma TakesAgain(q: GoodParser, trace: seq<Event>, n: nat, ch: byte, q1: Parser, mark: MarkAct, notes: seq<Event>)
    requires ParsingHeader(q.state) && Room(q, 1) && ParsingHeader(q1.state)
    requires Arm(q.(nread := q.nread + 1), ch) == Again(q1, mark, notes) && q1.nread == q.nread + 1
    requires Good(q1.(nread := q.nread))
    ensures Advance(Live(q, trace, n), ch)
      == Advance(Live(q1.(nread := q.nread), EmitAll(trace, OwnData(mark, ch) + notes), n), ch)
  {
    hide Arm, MethodString, MarksAsStates, EmitAll;
    CountKeeps(q);
    CountKeeps(q1.(nread := q.nread));
    assert Counted(q1.(nread := q.nread)) == q1;
    ExecKeeps(Counted(q), ch);
    ExecKeeps(q1, ch);
    var own := OwnData(mark, ch) + notes;
    assert Exec(Counted(q), ch) == Prepend(own, Exec(q1, ch));
    PrependResumes(own, Exec(q1, ch), trace, n + 1);
  }

  /** The same where nothing is delivered. */
  lemma TakesOn(q: GoodParser, trace: seq<Event>, n: nat, ch: byte, q1: GoodParser)
    requires ParsingHeader(q.state) && Room(q, 1) && ParsingHeader(q1.state) && q1.nread == q.nread
    requires Arm(q.(nread := q.nread + 1), ch) == Again(q1.(nread := q.nread + 1), NoMark, [])
    ensures Advance(Live(q, trace, n), ch) == Advance(Live(q1, trace, n), ch)
  {
    hide Arm, Advance, Good, EmitAll;
    TakesAgain(q, trace, n, ch, q1.(nread := q.nread + 1), NoMark, []);
    assert OwnData(NoMark, ch) + [] == [];
    EmitAllNone(trace);
  }

  // ---- Bytes of a body, which are not counted --------------------------------------------------

  lemma TakesUncounted(q: GoodParser, trace: seq<Event>, n: nat, ch: byte, q1: Parser, mark: MarkAct, notes: seq<Event>)
    requires !ParsingHeader(q.state) && Arm(q, ch) == Next(q1, mark, notes)
    ensures Good(q1) && Advance(Live(q, trace, n), ch) == Live(q1, EmitAll(trace, OwnData(mark, ch) + notes), n + 1)
  {
    hide Arm, EmitAll, MethodString, MarksAsStates;
    ArmKeeps(q, ch);
  }

  /** A byte that re-executes into the end of a message. */
  lemma EndsMessage(q: GoodParser, trace: seq<Event>, n: nat, ch: byte, q1: Parser, own: Event)
    requires ParsingHeader(q.state) ==> Room(q, 1)
    requires var a := Arm(Counted(q), ch); a.Again? && a.q == q1 && OwnData(a.mark, ch) + a.notes == [own]
    requires q1.state == MessageDone
    ensures var q2 := q1.(state := NewMessage(q1));
      var t := Emit(Emit(trace, own), MessageComplete);
      Good(q2) && Advance(Live(q, trace, n), ch) == if q1.upgrade then Left(q2, t, n + 1) else Live(q2, t, n + 1)
  {
    hide Arm, Exec, EmitAll, Emit, MethodString, MarksAsStates, NewMessage, Quiet;
    EndsExec(q, ch, q1, own);
    ExecKeeps(Counted(q), ch);
    MessageDoneExec(q1, ch);
    PrependResumes([own], Exec(q1, ch), trace, n + 1);
    EmitAllOne(trace, own);
    EmitAllOne(Emit(trace, own), MessageComplete);
  }

  lemma EndsExec(q: GoodParser, ch: byte, q1: Parser, own: Event)
    requires ParsingHeader(q.state) ==> Room(q, 1)
    requires var a := Arm(Counted(q), ch); a.Again? && a.q == q1 && OwnData(a.mark, ch) + a.notes == [own]
    requires q1.state == MessageDone
    ensures AtSwitch(Counted(q)) && AtSwitch(q1) && Exec(Counted(q), ch) == Prepend([own], Exec(q1, ch))
  {
    hide Arm, MethodString, MarksAsStates, Quiet;
    CountKeeps(q);
    ArmKeeps(Counted(q), ch);
  }

  lemma MessageDoneExec(q: Parser, ch: byte)
    requires q.state == MessageDone
    ensures var q1 := q.(state := NewMessage(q));
      Exec(q, ch) == if q.upgrade then Quit(q1, [MessageComplete]) else Went(q1, [MessageComplete])
  {
    MessageDoneArmAt(q, ch);
    assert [] + [MessageComplete] == [MessageComplete];
  }
}
