/**
  The opening handshake: what `onHeaderComplete` accepts, and the handover of the connection from the
  HTTP parser to the frame decoder.
*/
module Handshake {
  import opened Bytes
  import opened HttpTypes
  import opened HttpStep
  import opened HttpRun
  import opened HttpFeed
  import opened HttpNames
  import opened HttpTokens
  import opened HttpHeaders
  import opened HttpHead
  import opened HttpRequest
  import opened HttpParserModule
  import opened BufferModule

  // ---- Header map ------------------------------------------------------------------------------

  type HeaderMap = map<seq<byte>, seq<byte>>

  /** `lastHeaderField_` and `headers_`; `named` says that the assertion of `setHeaderValue` has held so far. */
  datatype Collected = Collected(lastField: seq<byte>, headers: HeaderMap, named: bool)

  /**
    `setLastHeaderField` and `setHeaderValue`, which asserts that there is a name for the value; inserting
    does not overwrite. The map is also followed beyond a failed assertion, as a build without them goes on.
  */
  function Collect(c: Collected, e: Event): Collected {
    match e
    case Data(Field, bytes) => c.(lastField := bytes)
    case Data(Value, bytes) =>
      Collected([], if c.lastField in c.headers then c.headers else c.headers[c.lastField := bytes],
                c.named && c.lastField != [])
    case _ => c
  }

  function CollectAll(c: Collected, calls: seq<Event>): Collected {
    if calls == [] then c else Collect(CollectAll(c, calls[..|calls| - 1]), calls[|calls| - 1])
  }

  function CollectedBy(calls: seq<Event>): Collected {
    CollectAll(Collected([], map[], true), calls)
  }

  /** The first line of the first header of that name, which is compared byte by byte. */
  function FirstValue(hs: seq<Header>, name: seq<byte>): Option<seq<byte>> {
    if hs == [] then None else if hs[0].name == name then Some(hs[0].first) else FirstValue(hs[1..], name)
  }

  function Lookup(m: HeaderMap, name: seq<byte>): Option<seq<byte>> {
    if name in m then Some(m[name]) else None
  }

  lemma {:induction false} FirstValueSnoc(hs: seq<Header>, h: Header, name: seq<byte>)
    ensures FirstValue(hs + [h], name)
      == if FirstValue(hs, name).Some? then FirstValue(hs, name) else if h.name == name then Some(h.first) else None
  {
    if hs == [] {
      assert (hs + [h])[1..] == [];
    } else {
      assert (hs + [h])[1..] == hs[1..] + [h];
      FirstValueSnoc(hs[1..], h, name);
    }
  }

  lemma {:induction false} FirstValueFound(hs: seq<Header>, name: seq<byte>)
    requires FirstValue(hs, name).Some?
    ensures exists i :: 0 <= i < |hs| && hs[i].name == name && hs[i].first == FirstValue(hs, name).value
  {
    if hs[0].name != name {
      FirstValueFound(hs[1..], name);
      var i :| 0 <= i < |hs[1..]| && hs[1..][i].name == name && hs[1..][i].first == FirstValue(hs, name).value;
      assert hs[i + 1] == hs[1..][i];
    }
  }

  // ---- The callbacks of one call ---------------------------------------------------------------

  /** A value that is folded comes in one callback for every line. */
  function FoldCalls(cs: seq<Fold>): seq<Event> {
    if cs == [] then [] else FoldCalls(cs[..|cs| - 1]) + [Data(Value, [cs[|cs| - 1].blank] + cs[|cs| - 1].text)]
  }

  function HeaderCalls(hs: seq<Header>): seq<Event> {
    if hs == [] then []
    else
      var h := hs[|hs| - 1];
      HeaderCalls(hs[..|hs| - 1]) + ([Data(Field, h.name), Data(Value, h.first)] + FoldCalls(h.folds))
  }

  /** The callbacks of a request in front of `on_headers_complete`. */
  function CallsBefore(r: Request): seq<Event> {
    [MessageBegin, Data(Url, r.target)] + HeaderCalls(r.headers)
  }

  /** The callbacks of a request that arrives in one call, with names and lines of values uncut. */
  function Calls(r: Request): seq<Event> {
    CallsBefore(r) + [HeadersTold(r)]
  }

  lemma {:induction false} FoldsMerge(t: seq<Event>, v: seq<byte>, cs: seq<Fold>)
    ensures EmitAll(Emit(t, Data(Value, v)), FoldCalls(cs)) == Emit(t, Data(Value, Extended(v, cs)))
  {
    hide Emit, EmitAll;
    var t1 := Emit(t, Data(Value, v));
    if cs == [] {
      EmitAllNone(t1);
    } else {
      var before, c := cs[..|cs| - 1], cs[|cs| - 1];
      FoldsMerge(t, v, before);
      EmitAllAppend(t1, FoldCalls(before), [Data(Value, [c.blank] + c.text)]);
      EmitAllOne(Emit(t, Data(Value, Extended(v, before))), Data(Value, [c.blank] + c.text));
      EmitData(t, Value, Extended(v, before), [c.blank] + c.text);
    }
  }

  lemma {:induction false} HeadersMerge(t: seq<Event>, hs: seq<Header>)
    ensures EmitAll(t, HeaderCalls(hs)) == HeaderTrace(t, hs)
  {
    hide Emit, EmitAll;
    if hs == [] {
      EmitAllNone(t);
    } else {
      var before, h := hs[..|hs| - 1], hs[|hs| - 1];
      HeadersMerge(t, before);
      var t1, pair := HeaderTrace(t, before), [Data(Field, h.name), Data(Value, h.first)];
      EmitAllAppend(t, HeaderCalls(before), pair + FoldCalls(h.folds));
      EmitAllAppend(t1, pair, FoldCalls(h.folds));
      EmitAllTwo(t1, Data(Field, h.name), Data(Value, h.first));
      FoldsMerge(Emit(t1, Data(Field, h.name)), h.first, h.folds);
    }
  }

  lemma EmitAllTwo(t: seq<Event>, e1: Event, e2: Event)
    ensures EmitAll(t, [e1, e2]) == Emit(Emit(t, e1), e2)
  {
    hide Emit;
    assert [e1, e2] == [e1] + [e2];
    EmitAllAppend(t, [e1], [e2]);
    EmitAllOne(t, e1);
    EmitAllOne(Emit(t, e1), e2);
  }

  /** They come to the canonical trace of the request. */
  lemma CallsMerge(t: seq<Event>, r: Request)
    ensures EmitAll(t, Calls(r)) == Emit(HeaderTrace(LineTrace(t, r), r.headers), HeadersTold(r))
  {
    hide Emit, EmitAll, Switches;
    var line, e := [MessageBegin, Data(Url, r.target)], HeadersTold(r);
    EmitAllAppend(t, line + HeaderCalls(r.headers), [e]);
    EmitAllAppend(t, line, HeaderCalls(r.headers));
    EmitAllTwo(t, MessageBegin, Data(Url, r.target));
    HeadersMerge(LineTrace(t, r), r.headers);
    EmitAllOne(HeaderTrace(LineTrace(t, r), r.headers), e);
  }

  // ---- What is collected -----------------------------------------------------------------------

  lemma {:induction false} CollectAppend(c: Collected, a: seq<Event>, b: seq<Event>)
    ensures CollectAll(c, a + b) == CollectAll(CollectAll(c, a), b)
  {
    hide Collect;
    if b == [] {
      assert a + b == a;
    } else {
      CollectAppend(c, a, b[..|b| - 1]);
      assert (a + b)[..|a + b| - 1] == a + b[..|b| - 1];
    }
  }

  lemma CollectTwo(c: Collected, e1: Event, e2: Event)
    ensures CollectAll(c, [e1, e2]) == Collect(Collect(c, e1), e2)
  {
    hide Collect;
    assert [e1, e2][..1] == [e1] && [e1][..0] == [];
    assert CollectAll(c, [e1]) == Collect(CollectAll(c, []), e1);
  }

  /** The map holds the first line of the first header of every name. */
  ghost predicate FirstWins(m: HeaderMap, hs: seq<Header>) {
    forall name :: name != [] ==> Lookup(m, name) == FirstValue(hs, name)
  }

  lemma FirstWinsSnoc(c: Collected, hs: seq<Header>, h: Header)
    requires FirstWins(c.headers, hs) && c.lastField == h.name
    ensures FirstWins(Collect(c, Data(Value, h.first)).headers, hs + [h])
  {
    hide FirstValue;
    var m := Collect(c, Data(Value, h.first)).headers;
    forall name | name != []
      ensures Lookup(m, name) == FirstValue(hs + [h], name)
    {
      FirstValueSnoc(hs, h, name);
      assert Lookup(c.headers, name) == FirstValue(hs, name);
    }
  }

  /** The lines that continue a value are collected under the empty name. */
  lemma {:induction false} FoldsCollected(c: Collected, hs: seq<Header>, cs: seq<Fold>)
    requires FirstWins(c.headers, hs) && c.lastField == []
    ensures FirstWins(CollectAll(c, FoldCalls(cs)).headers, hs) && CollectAll(c, FoldCalls(cs)).lastField == []
  {
    hide FirstValue;
    if cs != [] {
      var before, e := cs[..|cs| - 1], Data(Value, [cs[|cs| - 1].blank] + cs[|cs| - 1].text);
      FoldsCollected(c, hs, before);
      assert FoldCalls(cs)[..|FoldCalls(cs)| - 1] == FoldCalls(before);
      var c1 := CollectAll(c, FoldCalls(before));
      forall name | name != []
        ensures Lookup(Collect(c1, e).headers, name) == FirstValue(hs, name)
      {
        assert Lookup(c1.headers, name) == FirstValue(hs, name);
      }
    }
  }

  /** What is collected from the callbacks of a header block is the first line of the first header of every name. */
  lemma {:induction false} HeadersCollected(c: Collected, hs: seq<Header>)
    requires c.headers == map[]
    ensures FirstWins(CollectAll(c, HeaderCalls(hs)).headers, hs)
  {
    hide Collect;
    if hs == [] {
      assert FirstWins(map[], []);
    } else {
      hide FirstWins;
      var before, h := hs[..|hs| - 1], hs[|hs| - 1];
      var pair := [Data(Field, h.name), Data(Value, h.first)];
      HeadersCollected(c, before);
      CollectAppend(c, HeaderCalls(before), pair + FoldCalls(h.folds));
      var c1 := CollectAll(c, HeaderCalls(before));
      CollectAppend(c1, pair, FoldCalls(h.folds));
      CollectTwo(c1, Data(Field, h.name), Data(Value, h.first));
      PairCollected(c1, h);
      FirstWinsSnoc(Collect(c1, Data(Field, h.name)), before, h);
      assert before + [h] == hs;
      FoldsCollected(CollectAll(c1, pair), hs, h.folds);
    }
  }

  /** Every value comes in one callback, behind a name. */
  predicate Named(hs: seq<Header>) {
    forall i :: 0 <= i < |hs| ==> hs[i].name != [] && hs[i].folds == []
  }

  /** The assertion of `setHeaderValue` fails at the first line that continues a value: a name is used only once. */
  lemma {:induction false} FoldsNamed(c: Collected, cs: seq<Fold>)
    requires c.lastField == []
    ensures CollectAll(c, FoldCalls(cs)).lastField == []
    ensures CollectAll(c, FoldCalls(cs)).named <==> c.named && cs == []
  {
    if cs != [] {
      FoldsNamed(c, cs[..|cs| - 1]);
      assert FoldCalls(cs)[..|FoldCalls(cs)| - 1] == FoldCalls(cs[..|cs| - 1]);
    }
  }

  lemma OneNamed(c: Collected, h: Header)
    ensures var c1 := CollectAll(c, [Data(Field, h.name), Data(Value, h.first)] + FoldCalls(h.folds));
      c1.named <==> c.named && h.name != [] && h.folds == []
  {
    var pair := [Data(Field, h.name), Data(Value, h.first)];
    CollectAppend(c, pair, FoldCalls(h.folds));
    CollectTwo(c, Data(Field, h.name), Data(Value, h.first));
    FoldsNamed(CollectAll(c, pair), h.folds);
  }

  /** Over the callbacks of a header block that assertion holds iff every header has a name and none is folded. */
  lemma {:induction false} NamedIff(c: Collected, hs: seq<Header>)
    ensures CollectAll(c, HeaderCalls(hs)).named <==> c.named && Named(hs)
  {
    hide Collect, FoldCalls;
    if hs != [] {
      var before, h := hs[..|hs| - 1], hs[|hs| - 1];
      NamedIff(c, before);
      CollectAppend(c, HeaderCalls(before), [Data(Field, h.name), Data(Value, h.first)] + FoldCalls(h.folds));
      OneNamed(CollectAll(c, HeaderCalls(before)), h);
      assert Named(hs) <==> Named(before) && h.name != [] && h.folds == [] by {
        assert forall i :: 0 <= i < |before| ==> before[i] == hs[i];
      }
    }
  }

  lemma PairCollected(c: Collected, h: Header)
    ensures Collect(c, Data(Field, h.name)) == c.(lastField := h.name)
    ensures Collect(Collect(c, Data(Field, h.name)), Data(Value, h.first)).lastField == []
  {}

  // ---- Accepting -------------------------------------------------------------------------------

  const HOST: string := "Host"
  const UPGRADE_NAME: string := "Upgrade"
  const CONNECTION_NAME: string := "Connection"
  const VERSION_NAME: string := "Sec-WebSocket-Version"
  const KEY_NAME: string := "Sec-WebSocket-Key"
  const WEBSOCKET: string := "websocket"

  /** `boost::to_lower_copy` in the classic locale. */
  function ToLower(s: seq<byte>): (l: seq<byte>)
    ensures |l| == |s|
  {
    seq(|s|, i requires 0 <= i < |s| => if 65 <= s[i] <= 90 then s[i] + 32 else s[i])
  }

  /** The word in any mixture of capitals and small letters. */
  predicate SaysWebSocket(v: seq<byte>) {
    |v| == 9 && forall i :: 0 <= i < 9 ==> v[i] == "websocket"[i] as int || v[i] == "WEBSOCKET"[i] as int
  }

  /** Comparing the value in lower case comes to that. */
  lemma LowerIff(v: seq<byte>)
    ensures ToLower(v) == Ascii(WEBSOCKET) <==> SaysWebSocket(v)
  {
    forall i | 0 <= i < 9
      ensures Ascii(WEBSOCKET)[i] == "websocket"[i] as int && "WEBSOCKET"[i] as int == "websocket"[i] as int - 32
    {
      assert WEBSOCKET[i] as int < 256;
    }
    if SaysWebSocket(v) {
      assert forall i :: 0 <= i < 9 ==> ToLower(v)[i] == Ascii(WEBSOCKET)[i];
    } else if ToLower(v) == Ascii(WEBSOCKET) {
      forall i | 0 <= i < 9
        ensures v[i] == "websocket"[i] as int || v[i] == "WEBSOCKET"[i] as int
      {
        assert ToLower(v)[i] == Ascii(WEBSOCKET)[i];
      }
    }
  }

  /**
    What a request is answered: a bad one is refused and closed, the rest is switched with this key, unless
    the assertion of `setHeaderValue` has ended the program before `onHeaderComplete`.
  */
  datatype Answer = BadRequest | SwitchingProtocols(key: seq<byte>) | Aborted

  function OnHeaderComplete(meth: Method, major: nat, minor: nat, m: HeaderMap): Answer {
    if meth != GET then BadRequest
    else if major <= 1 && minor < 1 then BadRequest
    else if Ascii(HOST) !in m || m[Ascii(HOST)] == [] then BadRequest
    else if Ascii(UPGRADE_NAME) !in m then BadRequest
    else if ToLower(m[Ascii(UPGRADE_NAME)]) != Ascii(WEBSOCKET) then BadRequest
    else if Ascii(CONNECTION_NAME) !in m || m[Ascii(CONNECTION_NAME)] != Ascii(UPGRADE_NAME) then BadRequest
    else if Ascii(VERSION_NAME) !in m || m[Ascii(VERSION_NAME)] != Ascii("13") then BadRequest
    else if Ascii(KEY_NAME) !in m || |m[Ascii(KEY_NAME)]| != 24 then BadRequest
    else SwitchingProtocols(m[Ascii(KEY_NAME)])
  }

  /** The answer of a build without assertions to a request that arrives in one call. */
  function Judged(r: Request): (a: Answer)
    ensures a != Aborted
  {
    OnHeaderComplete(r.meth, r.major, r.minor, CollectedBy(CallsBefore(r)).headers)
  }

  /** The answer to a request that arrives in one call. */
  function AnswerTo(r: Request): Answer {
    if CollectedBy(CallsBefore(r)).named then Judged(r) else Aborted
  }

  lemma LineCollected(r: Request)
    ensures FirstWins(CollectedBy(CallsBefore(r)).headers, r.headers)
    ensures CollectedBy(CallsBefore(r)).named <==> Named(r.headers)
  {
    hide FirstWins, Named;
    var line, c := [MessageBegin, Data(Url, r.target)], Collected([], map[], true);
    CollectTwo(c, MessageBegin, Data(Url, r.target));
    CollectAppend(c, line, HeaderCalls(r.headers));
    HeadersCollected(c, r.headers);
    NamedIff(c, r.headers);
  }

  /** A request that the parser takes is answered at all iff none of its headers is folded. */
  lemma AbortedIff(r: Request)
    requires LegalRequest(r)
    ensures AnswerTo(r) == Aborted <==> exists h :: h in r.headers && h.folds != []
  {
    hide Judged, CollectedBy, LegalTarget, LegalSpacing, AllAcceptable, Any;
    LineCollected(r);
    AllNamed(r.headers, false);
  }

  lemma {:induction false} AllNamed(hs: seq<Header>, sized: bool)
    requires AllAcceptable(hs, sized)
    ensures forall i :: 0 <= i < |hs| ==> hs[i].name != []
  {
    hide Any;
    if hs != [] {
      AllNamed(hs[..|hs| - 1], sized);
      assert forall i :: 0 <= i < |hs| - 1 ==> hs[i] == hs[..|hs| - 1][i];
    }
  }

  /**
    A request is accepted iff it has the method, the version and the header values that are asked for,
    and no folded header, which ends the program.
  */
  lemma AcceptedIff(r: Request)
    ensures AnswerTo(r).SwitchingProtocols? <==> Named(r.headers) && Judged(r).SwitchingProtocols?
    ensures AnswerTo(r) == if Named(r.headers) then Judged(r) else Aborted
    ensures Judged(r).SwitchingProtocols? <==>
      && r.meth == GET && (r.major > 1 || r.minor >= 1)
      && FirstValue(r.headers, Ascii(HOST)).Some? && FirstValue(r.headers, Ascii(HOST)) != Some([])
      && FirstValue(r.headers, Ascii(UPGRADE_NAME)).Some?
      && SaysWebSocket(FirstValue(r.headers, Ascii(UPGRADE_NAME)).value)
      && FirstValue(r.headers, Ascii(CONNECTION_NAME)) == Some(Ascii(UPGRADE_NAME))
      && FirstValue(r.headers, Ascii(VERSION_NAME)) == Some(Ascii("13"))
      && FirstValue(r.headers, Ascii(KEY_NAME)).Some? && |FirstValue(r.headers, Ascii(KEY_NAME)).value| == 24
    ensures Judged(r).SwitchingProtocols? ==> Some(Judged(r).key) == FirstValue(r.headers, Ascii(KEY_NAME))
  {
    hide Ascii, CollectedBy, FirstValue, ToLower, Named, SaysWebSocket;
    LineCollected(r);
    NamesNotEmpty();
    if FirstValue(r.headers, Ascii(UPGRADE_NAME)).Some? {
      LowerIff(FirstValue(r.headers, Ascii(UPGRADE_NAME)).value);
    }
    var m := CollectedBy(CallsBefore(r)).headers;
    assert Lookup(m, Ascii(HOST)) == FirstValue(r.headers, Ascii(HOST));
    assert Lookup(m, Ascii(UPGRADE_NAME)) == FirstValue(r.headers, Ascii(UPGRADE_NAME));
    assert Lookup(m, Ascii(CONNECTION_NAME)) == FirstValue(r.headers, Ascii(CONNECTION_NAME));
    assert Lookup(m, Ascii(VERSION_NAME)) == FirstValue(r.headers, Ascii(VERSION_NAME));
    assert Lookup(m, Ascii(KEY_NAME)) == FirstValue(r.headers, Ascii(KEY_NAME));
  }

  lemma NamesNotEmpty()
    ensures Ascii(HOST) != [] && Ascii(UPGRADE_NAME) != [] && Ascii(CONNECTION_NAME) != [] && Ascii(VERSION_NAME) != []
    ensures Ascii(KEY_NAME) != []
  {}

  /**
    Section 4.2.1 of RFC 6455 asks for HTTP/1.1 or higher. Among the requests that are accepted the
    version is lower than that iff its major number is 0.
  */
  lemma AcceptedVersions(r: Request)
    requires AnswerTo(r).SwitchingProtocols?
    ensures !(r.major > 1 || (r.major == 1 && r.minor >= 1)) <==> r.major == 0
  {
    hide OnHeaderComplete, CollectedBy, FirstValue, Ascii, SaysWebSocket;
    AcceptedIff(r);
  }

  // ---- The parser's own matchers agree ---------------------------------------------------------

  lemma NamesLowered()
    ensures ClassOfName(Ascii(UPGRADE_NAME)) == Upgrading && ClassOfName(Ascii(CONNECTION_NAME)) == Connecting
  {
    hide Lowered, Ascii, ClassOfName;
    UpgradeLowered();
    ConnectionLowered();
  }

  lemma UpgradeLowered()
    ensures ClassOfName(Ascii(UPGRADE_NAME)) == Upgrading
  {
    hide At, PrefixOf, NameAfter;
    assert Lowered(Ascii(UPGRADE_NAME)) == Ascii(UPGRADE);
    NameExact(Ascii(UPGRADE));
  }

  lemma ConnectionLowered()
    ensures ClassOfName(Ascii(CONNECTION_NAME)) == Connecting
  {
    hide At, PrefixOf, NameAfter;
    assert Lowered(Ascii(CONNECTION_NAME)) == Ascii(CONNECTION);
    NameExact(Ascii(CONNECTION));
  }

  lemma UpgradeSaid()
    ensures Begins(Ascii(UPGRADE_NAME), UPGRADE)
  {
    var name := Ascii(UPGRADE_NAME);
    forall i | 0 <= i < |name|
      ensures At(UPGRADE, i, Lower(name[i]))
    {
      assert name[i] == UPGRADE_NAME[i] as int;
    }
  }

  lemma ValueLowered()
    ensures Asks(Ascii(UPGRADE_NAME), [], UPGRADE) && Ascii(WEBSOCKET) != []
  {
    UpgradeSaid();
    hide Begins;
    OneToken(Ascii(UPGRADE_NAME), UPGRADE);
  }

  /** What the parser's own matchers have recognised in a request that the values of its headers let pass. */
  lemma JudgedSwitches(r: Request)
    requires Judged(r).SwitchingProtocols?
    ensures r.meth == GET && (Switches(r) <==> Any(r.headers, AsksUpgrade))
    ensures (forall h :: h in r.headers && h.name == Ascii(CONNECTION_NAME) ==> h.folds == []) ==> Switches(r)
  {
    hide Ascii, FirstValue, ClassOfName, Says, Asks;
    AcceptedIff(r);
    NamesLowered();
    ValueLowered();
    FirstValueFound(r.headers, Ascii(UPGRADE_NAME));
    var i :| 0 <= i < |r.headers| && r.headers[i].name == Ascii(UPGRADE_NAME)
      && r.headers[i].first == FirstValue(r.headers, Ascii(UPGRADE_NAME)).value;
    assert Upgrades(r.headers[i]);
    FirstValueFound(r.headers, Ascii(CONNECTION_NAME));
    var j :| 0 <= j < |r.headers| && r.headers[j].name == Ascii(CONNECTION_NAME)
      && r.headers[j].first == FirstValue(r.headers, Ascii(CONNECTION_NAME)).value;
    if r.headers[j].folds == [] {
      assert AsksUpgrade(r.headers[j]);
    }
  }

  /** Whatever is accepted, the parser itself has recognised as a request to switch. */
  lemma AcceptedSwitches(r: Request)
    requires AnswerTo(r).SwitchingProtocols?
    ensures r.meth == GET && Switches(r)
  {
    hide Judged, CollectedBy, Any, FirstValue, Ascii, SaysWebSocket;
    AcceptedIff(r);
    JudgedSwitches(r);
  }

  // ---- The handover ----------------------------------------------------------------------------

  /** The headers announce a body. */
  predicate AnnouncesBody(r: Request) {
    Any(r.headers, Chunks) || (SizeOf(r.headers, ULLONG_MAX) > 0 && SizeOf(r.headers, ULLONG_MAX) != ULLONG_MAX)
  }

  /**
    The answers given along the callbacks: one for every `on_headers_complete`, from the headers collected
    before it, as long as no assertion has failed.
  */
  function Answers(calls: seq<Event>): (answers: seq<Answer>)
    ensures Aborted !in answers
  {
    if calls == [] then []
    else
      var before, e := calls[..|calls| - 1], calls[|calls| - 1];
      Answers(before)
      + if e.HeadersComplete? && CollectedBy(before).named
        then [OnHeaderComplete(e.meth, e.major, e.minor, CollectedBy(before).headers)] else []
  }

  lemma {:induction false} Unanswered(calls: seq<Event>)
    requires forall e :: e in calls ==> e.Data? || e.MessageBegin?
    ensures Answers(calls) == []
  {
    if calls != [] {
      Unanswered(calls[..|calls| - 1]);
      assert calls[|calls| - 1] in calls;
    }
  }

  lemma {:induction false} FoldCallsData(cs: seq<Fold>)
    ensures forall e :: e in FoldCalls(cs) ==> e.Data?
  {
    if cs != [] {
      FoldCallsData(cs[..|cs| - 1]);
    }
  }

  lemma {:induction false} HeaderCallsData(hs: seq<Header>)
    ensures forall e :: e in HeaderCalls(hs) ==> e.Data?
  {
    if hs != [] {
      HeaderCallsData(hs[..|hs| - 1]);
      FoldCallsData(hs[|hs| - 1].folds);
    }
  }

  /** All callbacks of a request, with its completion if it is complete. */
  function AllCalls(r: Request, complete: bool): seq<Event> {
    Calls(r) + if complete then [MessageComplete] else []
  }

  lemma HeadAnswered(r: Request, complete: bool)
    ensures Answers(AllCalls(r, complete)) == if AnswerTo(r) == Aborted then [] else [AnswerTo(r)]
  {
    hide OnHeaderComplete, CollectedBy, Switches;
    var before := CallsBefore(r);
    HeaderCallsData(r.headers);
    Unanswered(before);
    assert Calls(r)[..|Calls(r)| - 1] == before;
    assert (Calls(r) + [MessageComplete])[..|Calls(r)|] == Calls(r);
    assert Calls(r) + [] == Calls(r);
    JudgedAtAll(r);
  }

  lemma JudgedAtAll(r: Request)
    ensures AnswerTo(r) == Aborted <==> !CollectedBy(CallsBefore(r)).named
  {}

  lemma CallsDone(t: seq<Event>, r: Request, t1: seq<Event>, complete: bool)
    requires t1 == Emit(HeaderTrace(LineTrace(t, r), r.headers), HeadersTold(r))
    ensures EmitAll(t, AllCalls(r, complete)) == if complete then Emit(t1, MessageComplete) else t1
  {
    hide Emit, EmitAll, Switches;
    CallsMerge(t, r);
    if complete {
      EmitAllAppend(t, Calls(r), [MessageComplete]);
      EmitAllOne(t1, MessageComplete);
    } else {
      assert Calls(r) + [] == Calls(r);
    }
  }

  /** Nothing but the headers of the message is read before it is complete. */
  predicate Completes(r: Request) {
    r.meth == CONNECT || !AnnouncesBody(r)
  }

  /** A request from between two messages: the callbacks are its own, and the parser leaves, goes into the body or on. */
  lemma HeadOver(q: GoodParser, t: seq<Event>, n: nat, r: Request)
    requires q.state == StartReq && LegalRequest(r) && Room(q, |Wire(r)|)
    ensures var head := Over(Live(q, t, n), Wire(r));
      && !head.Failed? && head.n == n + |Wire(r)| && (head.q.upgrade <==> Switches(r))
      && head.trace == EmitAll(t, AllCalls(r, Completes(r)))
      && (head.Left? <==> Switches(r) && Completes(r))
      && (Completes(r) ==> head.q.nread == 0 && head.q.state == NewMessage(head.q))
      && (head.Live? ==> if AnnouncesBody(r) then head.q.state == ChunkSizeStart || head.q.state == BodyIdentity
                         else head.q.state == StartReq || head.q.state == Dead)
  {
    hide MethodString, Good, BlockFlags, LegalTarget, AllAcceptable, LineWire, Emit, EmitAll, Any, NewMessage, AllCalls,
      Over, HeaderTrace, LineTrace, LegalSpacing, SizeOf;
    var q1 := RequestRead(q, t, n, r);
    HeadFlags(q1.flags, r.headers);
    EndStates(q1);
    SameEnd(q1, NewMessage(q1));
    CallsDone(t, r, Emit(HeaderTrace(LineTrace(t, r), r.headers), HeadersEvent(q1)), Completes(r));
  }

  /** Whether the connection goes on is decided by the version and the flags alone. */
  lemma SameEnd(q: Parser, s: State)
    ensures NewMessage(HeadDone(q, s)) == NewMessage(q)
  {}

  /**
    The handover: when an accepted request and whatever follows it arrive in one call, it is answered
    as such, and the parser stops exactly behind the blank line, so that the next unread byte is the
    first frame byte, iff the request does not announce a body. With a body announced the parser goes on,
    and takes the frames for that body.
  */
  lemma HandoverIff(r: Request, more: seq<byte>)
    requires LegalRequest(r) && |Wire(r)| <= MAX_HEADER_SIZE && AnswerTo(r).SwitchingProtocols?
    ensures Good(INITIAL)
    ensures var head, run := Over(Live(INITIAL, [], 0), Wire(r)), Over(Live(INITIAL, [], 0), Wire(r) + more);
      && !head.Failed? && head.n == |Wire(r)| && head.q.upgrade
      && head.trace == EmitAll([], AllCalls(r, !AnnouncesBody(r))) && Answers(AllCalls(r, !AnnouncesBody(r))) == [AnswerTo(r)]
      && (head.Left? <==> !AnnouncesBody(r))
      && (head.Left? ==> run == head)
      && (head.Live? ==> head.q.state == ChunkSizeStart || head.q.state == BodyIdentity)
  {
    hide Good, LegalTarget, AllAcceptable, LegalSpacing, Wire, EmitAll, AnswerTo, Judged, Answers, AllCalls, Over, AnnouncesBody,
      Switches;
    AcceptedIff(r);
    AcceptedSwitches(r);
    HeadTaken(r);
    HeadAnswered(r, !AnnouncesBody(r));
    var head := Over(Live(INITIAL, [], 0), Wire(r));
    OverAppend(Live(INITIAL, [], 0), Wire(r), more);
    if head.Left? {
      LeftStays(head, more);
    }
  }

  /** The request by itself, in a build with or without assertions. */
  lemma HeadTaken(r: Request)
    requires LegalRequest(r) && |Wire(r)| <= MAX_HEADER_SIZE && Judged(r).SwitchingProtocols?
    ensures Good(INITIAL)
    ensures var head := Over(Live(INITIAL, [], 0), Wire(r));
      && !head.Failed? && head.n == |Wire(r)| && (head.q.upgrade <==> Switches(r))
      && head.trace == EmitAll([], AllCalls(r, !AnnouncesBody(r)))
      && (head.Left? <==> Switches(r) && !AnnouncesBody(r))
      && (head.Live? ==> if AnnouncesBody(r) then head.q.state == ChunkSizeStart || head.q.state == BodyIdentity
                         else head.q.state == StartReq || head.q.state == Dead)
  {
    hide Good, LegalTarget, AllAcceptable, LegalSpacing, Wire, EmitAll, Judged, AllCalls, Over, AnnouncesBody, Switches, Any;
    InitialIsGood();
    JudgedSwitches(r);
    HeadOver(INITIAL, [], 0, r);
  }

  lemma EndStates(q: Parser)
    ensures NewMessage(q) == StartReq || NewMessage(q) == Dead
  {}

  lemma LeftStays(r: Run, data: seq<byte>)
    requires r.Left?
    ensures Over(r, data) == r
  {
    Ended(r, data, 0, |data|);
  }

  /**
    `parse` while the status is INITIAL: run the parser over what is readable and drop what it took,
    which is nothing once it is in error. `wanted_` is still zero.
  */
  method ParseInitial(parser: HttpParser, input: Buffer) returns (nparsed: nat)
    requires parser.Valid() && input.Valid() && 0 < |input.View()| < 0x8000_0000
    modifies parser, input
    ensures parser.Valid() && input.Valid()
    ensures nparsed <= |old(input.View())| && input.View() == old(input.View())[nparsed..]
    ensures parser.Reached(Over(old(parser.Here()), old(input.View())), nparsed)
    ensures old(parser.errno) != Ok ==> nparsed == 0 && parser.errno == old(parser.errno) && parser.log == old(parser.log)
  {
    hide Advance, Over, Good;
    ghost var data := input.View();
    if parser.errno != Ok {
      FailedStays(data);
    }
    nparsed := parser.Execute(input.View());
    input.Retrieve(nparsed);
  }
}
