/** The incremental recognisers are exact: methods at the space behind them, header names at the colon. */
module HttpNames {
  import opened Bytes
  import opened HttpTypes
  import opened HttpStep
  import opened HttpRun
  import opened HttpFeed

  // ---- Methods ---------------------------------------------------------------------------------

  /** The first `i` bytes of `w` are those of `word`. */
  predicate Spells(w: seq<byte>, i: nat, word: string)
    requires i <= |w|
  {
    forall j :: 0 <= j < i ==> At(word, j, w[j])
  }

  /** An edge of the nested switch keeps what was read. */
  lemma SwitchKeeps(m: Method, index: nat, ch: byte, j: nat)
    requires SwitchMethod(m, index, ch).Some? && j < index && index <= 4
    ensures var word := MethodString(SwitchMethod(m, index, ch).value);
      j < |MethodString(m)| && At(word, j, MethodString(m)[j] as int)
  {
    hide MethodString, SwitchMethod, At;
    if Branching(m) {
      BranchKeeps(m, index, ch, j);
    } else {
      EdgeKeepsRead(m, index, ch, j);
    }
  }

  lemma BranchKeeps(m: Method, index: nat, ch: byte, j: nat)
    requires SwitchMethod(m, index, ch).Some? && j < index && index <= 4 && Branching(m)
    ensures var word := MethodString(SwitchMethod(m, index, ch).value);
      j < |MethodString(m)| && At(word, j, MethodString(m)[j] as int)
  {}

  lemma EdgeKeepsRead(m: Method, index: nat, ch: byte, j: nat)
    requires SwitchMethod(m, index, ch).Some? && j < index && index <= 4 && !Branching(m)
    ensures var word := MethodString(SwitchMethod(m, index, ch).value);
      j < |MethodString(m)| && At(word, j, MethodString(m)[j] as int)
  {}

  lemma FirstSpells(ch: byte)
    requires FirstMethod(ch).Some?
    ensures At(MethodString(FirstMethod(ch).value), 0, ch)
  {}

  /** One more byte of a method that is not a space. */
  lemma MethodByte(q: GoodParser, trace: seq<Event>, n: nat, w: seq<byte>)
    requires q.state == ReqMethod && q.index < |w| && w[q.index] != SP && Room(q, 1)
    requires Spells(w, q.index, MethodString(q.meth))
    ensures var r := Advance(Live(q, trace, n), w[q.index]);
      || r == Failed
      || (&& r.Live? && r.trace == trace && r.n == n + 1
          && r.q == q.(meth := r.q.meth, index := q.index + 1, nread := q.nread + 1)
          && Spells(w, q.index + 1, MethodString(r.q.meth)))
  {
    hide Advance, Good, MethodString;
    var ch := w[q.index];
    var a := MethodArm(q.(nread := q.nread + 1), ch);
    if a.Bad? {
      Refuses(q, trace, n, ch);
    } else {
      TakesQuietly(q, trace, n, ch, a.q);
      if !At(MethodString(q.meth), q.index, ch) {
        SwitchSpells(q.meth, q.index, ch);
        forall j | 0 <= j < q.index
          ensures At(MethodString(a.q.meth), j, w[j])
        {
          SwitchKeeps(q.meth, q.index, ch, j);
        }
      }
    }
  }

  lemma StartByte(q: GoodParser, trace: seq<Event>, n: nat, ch: byte)
    requires q.state == StartReq && ch != CR && ch != LF && Room(q, 1)
    ensures match FirstMethod(ch)
      case None => Advance(Live(q, trace, n), ch) == Failed
      case Some(m) =>
        var q1 := q.(state := ReqMethod, meth := m, index := 1, flags := NO_FLAGS, contentLength := ULLONG_MAX, nread := q.nread + 1);
        Good(q1) && Advance(Live(q, trace, n), ch) == Live(q1, Emit(trace, MessageBegin), n + 1)
  {
    hide Advance, Good, MethodString, Emit;
    var a := StartReqArm(q.(nread := q.nread + 1), ch);
    if a.Bad? {
      Refuses(q, trace, n, ch);
    } else {
      Takes(q, trace, n, ch, a.q, NoMark, [MessageBegin]);
      assert OwnData(NoMark, ch) + [MessageBegin] == [MessageBegin];
      EmitAllOne(trace, MessageBegin);
    }
  }

  /** Where a start parser is after the bytes of a method spelled so far. */
  function InMethod(q: Parser, m: Method, i: nat): Parser {
    q.(state := ReqMethod, meth := m, index := i, flags := NO_FLAGS, contentLength := ULLONG_MAX, nread := q.nread + i)
  }

  /** The prefix invariant: the method tracked always begins with the bytes read. */
  lemma {:induction false} MethodPrefix(q: GoodParser, trace: seq<Event>, n: nat, w: seq<byte>, i: nat)
    requires q.state == StartReq && 1 <= i <= |w| && w[0] != CR && w[0] != LF && SP !in w && Room(q, |w|)
    ensures var r := Upto(Live(q, trace, n), w, i);
      || r == Failed
      || (&& r.Live? && r.trace == Emit(trace, MessageBegin) && r.n == n + i
          && r.q == InMethod(q, r.q.meth, i) && Spells(w, i, MethodString(r.q.meth)))
  {
    hide Advance, Good, MethodString, Emit;
    var start := Live(q, trace, n);
    UptoStep(start, w, i - 1);
    if i == 1 {
      assert Upto(start, w, 0) == start;
      StartByte(q, trace, n, w[0]);
      if FirstMethod(w[0]).Some? {
        FirstSpells(w[0]);
      }
    } else {
      MethodPrefix(q, trace, n, w, i - 1);
      var r := Upto(start, w, i - 1);
      if r.Live? {
        assert w[i - 1] != SP;
        MethodByte(r.q, r.trace, r.n, w);
      } else {
        AdvanceFailed(w[i - 1]);
      }
    }
  }

  /** The method from whose table entry the nested switch reaches `m`, and at which position. */
  function Origin(m: Method): Option<(Method, nat)> {
    match m
    case PUT => Some((POST, 1)) case PATCH => Some((POST, 1)) case PROPFIND => Some((POST, 1))
    case PURGE => Some((PUT, 2)) case CHECKOUT => Some((CONNECT, 1)) case COPY => Some((CONNECT, 2))
    case MOVE => Some((MKCOL, 1)) case MERGE => Some((MKCOL, 1)) case MSEARCH => Some((MKCOL, 1))
    case MKACTIVITY => Some((MKCOL, 2)) case MKCALENDAR => Some((MKCOL, 3))
    case SEARCH => Some((SUBSCRIBE, 1)) case SOURCE => Some((SUBSCRIBE, 1)) case REBIND => Some((REPORT, 2))
    case PROPPATCH => Some((PROPFIND, 4)) case LINK => Some((LOCK, 1))
    case UNSUBSCRIBE => Some((UNLOCK, 2)) case UNBIND => Some((UNLOCK, 2)) case UNLINK => Some((UNLOCK, 3))
    case _ => None
  }

  /** The entry tracked after `i` bytes of the name of `m`. */
  function Tracked(m: Method, i: nat): Method
    decreases match Origin(m) case None => 0 case Some(o) => o.1
  {
    match Origin(m)
    case None => m
    case Some((from, at)) => if i <= at then Tracked(from, i) else m
  }

  predicate InWebDav(m: Method) {
    m.COPY? || m.LOCK? || m.MKCOL? || m.MOVE? || m.PROPFIND? || m.PROPPATCH? || m.SEARCH? || m.UNLOCK? || m.BIND? || m.REBIND?
    || m.UNBIND? || m.ACL? || m.REPORT? || m.MKACTIVITY? || m.CHECKOUT? || m.MERGE?
  }

  lemma WebDavBytes(m: Method, j: nat)
    requires InWebDav(m) && j < |MethodString(m)|
    ensures MethodString(m)[j] as int == 45 || 65 <= MethodString(m)[j] as int <= 90
  {}

  lemma OtherBytes(m: Method, j: nat)
    requires !InWebDav(m) && j < |MethodString(m)|
    ensures MethodString(m)[j] as int == 45 || 65 <= MethodString(m)[j] as int <= 90
  {}

  lemma MethodBytesAscii(m: Method)
    ensures forall j :: 0 <= j < |MethodString(m)| ==>
      45 <= MethodString(m)[j] as int <= 90 && (MethodString(m)[j] as int == 45 || 65 <= MethodString(m)[j] as int)
  {
    hide MethodString;
    forall j | 0 <= j < |MethodString(m)|
      ensures MethodString(m)[j] as int == 45 || 65 <= MethodString(m)[j] as int <= 90
    {
      if InWebDav(m) {
        WebDavBytes(m, j);
      } else {
        OtherBytes(m, j);
      }
    }
  }

  /** The nested switch has the edge to `m` that `Origin` names, and it is the one taken. */
  lemma OriginEdge(m: Method)
    ensures match Origin(m)
      case None => true
      case Some((from, at)) =>
        && at < |MethodString(m)| && at < |MethodString(from)|
        && 45 <= MethodString(m)[at] as int <= 90
        && SwitchMethod(from, at, MethodString(m)[at] as int) == Some(m)
        && MethodString(from)[at] != MethodString(m)[at]
        && (Origin(from).Some? ==> Origin(from).value.1 < at)
  {
    hide MethodString, SwitchMethod;
    OriginDiffers(m);
    OriginTaken(m);
    OriginDescends(m);
  }

  lemma OriginDiffers(m: Method)
    ensures match Origin(m)
      case None => true
      case Some((from, at)) =>
        && at < |MethodString(m)| && at < |MethodString(from)|
        && 45 <= MethodString(m)[at] as int <= 90 && MethodString(from)[at] != MethodString(m)[at]
  {}

  lemma OriginTaken(m: Method)
    ensures match Origin(m)
      case None => true
      case Some((from, at)) =>
        at < |MethodString(m)| && 45 <= MethodString(m)[at] as int <= 90
        && SwitchMethod(from, at, MethodString(m)[at] as int) == Some(m)
  {}

  lemma OriginDescends(m: Method)
    ensures Origin(m).Some? ==>
      var (from, at) := Origin(m).value; Origin(from).Some? ==> Origin(from).value.1 < at
  {}

  /** Up to its edge a method is spelled like the one it comes from. */
  lemma OriginPrefix(m: Method, j: nat)
    requires Origin(m).Some? && j < Origin(m).value.1
    ensures j < |MethodString(m)| && j < |MethodString(Origin(m).value.0)|
    ensures MethodString(m)[j] == MethodString(Origin(m).value.0)[j]
  {}

  /** The edges meet: reading one more byte of `m` moves from one tracked entry to the next. */
  lemma {:induction false} TrackStep(m: Method, i: nat)
    requires 1 <= i < |MethodString(m)|
    ensures var ch, from, to := MethodString(m)[i] as int, Tracked(m, i), Tracked(m, i + 1);
      45 <= ch <= 90 && (ch == 45 || ch >= 65) &&
      if At(MethodString(from), i, ch) then from == to else SwitchMethod(from, i, ch) == Some(to)
    decreases match Origin(m) case None => 0 case Some(o) => o.1
  {
    hide MethodString, SwitchMethod;
    OriginEdge(m);
    MethodBytesAscii(m);
    match Origin(m)
    case None =>
    case Some((from, at)) =>
      if i < at {
        OriginPrefix(m, i);
        TrackStep(from, i);
        OriginEdge(from);
      } else if i == at {
        OriginEdge(from);
      }
  }

  lemma TrackedLast(m: Method)
    ensures 3 <= |MethodString(m)| && Tracked(m, |MethodString(m)|) == m
  {
    hide MethodString, SwitchMethod;
    OriginEdge(m);
    MethodWords();
  }

  /** The first letter leads to the first entry tracked. */
  lemma {:induction false} TrackedFirst(m: Method)
    ensures MethodString(m) != [] && 65 <= MethodString(m)[0] as int <= 90
    ensures FirstMethod(MethodString(m)[0] as int) == Some(Tracked(m, 1))
    decreases match Origin(m) case None => 0 case Some(o) => o.1
  {
    match Origin(m)
    case None => OwnFirst(m);
    case Some((from, at)) =>
      hide MethodString, SwitchMethod, FirstMethod;
      OriginEdge(m);
      OriginPositive(m);
      OriginPrefix(m, 0);
      TrackedFirst(from);
  }

  lemma OriginPositive(m: Method)
    requires Origin(m).Some?
    ensures Origin(m).value.1 >= 1
  {}

  lemma OwnFirst(m: Method)
    requires Origin(m).None?
    ensures MethodString(m) != [] && 65 <= MethodString(m)[0] as int <= 90
    ensures FirstMethod(MethodString(m)[0] as int) == Some(m)
  {}

  lemma TrackEnds(m: Method)
    ensures 3 <= |MethodString(m)| && Tracked(m, |MethodString(m)|) == m
    ensures 65 <= MethodString(m)[0] as int <= 90 && FirstMethod(MethodString(m)[0] as int) == Some(Tracked(m, 1))
  {
    hide MethodString, FirstMethod, Tracked;
    TrackedLast(m);
    TrackedFirst(m);
  }

  lemma MethodReachedByte(q: Parser, trace: seq<Event>, n: nat, m: Method, i: nat)
    requires 2 <= i <= |MethodString(m)| && Room(q, i) && Good(InMethod(q, Tracked(m, i - 1), i - 1))
    ensures Good(InMethod(q, Tracked(m, i), i))
    ensures Advance(Live(InMethod(q, Tracked(m, i - 1), i - 1), trace, n + i - 1), MethodString(m)[i - 1] as int % 256)
      == Live(InMethod(q, Tracked(m, i), i), trace, n + i)
  {
    hide Arm, Advance, MethodString, Good, Tracked, SwitchMethod, At;
    TrackStep(m, i - 1);
    var ch := MethodString(m)[i - 1] as int;
    var q1 := InMethod(q, Tracked(m, i - 1), i - 1);
    MethodArmTo(q1.(nread := q1.nread + 1), ch, Tracked(m, i));
    TakesQuietly(q1, trace, n + i - 1, ch, InMethod(q, Tracked(m, i), i));
  }

  /** The byte keeps the entry tracked, or takes the edge to another one. */
  lemma MethodArmTo(q: Parser, ch: byte, m: Method)
    requires q.state == ReqMethod && (ch == 45 || 65 <= ch <= 90)
    requires if At(MethodString(q.meth), q.index, ch) then m == q.meth else SwitchMethod(q.meth, q.index, ch) == Some(m)
    ensures Arm(q, ch) == Next(q.(meth := m, index := q.index + 1), NoMark, [])
  {
    hide Arm, MethodString, SwitchMethod;
    MethodArmAt(q, ch);
  }

  /** Every method in the table is reachable: its own bytes lead to it. */
  lemma {:induction false} MethodReached(q: GoodParser, trace: seq<Event>, n: nat, m: Method, i: nat)
    requires q.state == StartReq && 1 <= i <= |MethodString(m)| && Room(q, i)
    ensures Good(InMethod(q, Tracked(m, i), i))
    ensures Upto(Live(q, trace, n), Ascii(MethodString(m)), i)
      == Live(InMethod(q, Tracked(m, i), i), Emit(trace, MessageBegin), n + i)
  {
    hide Advance, MethodString, Emit, Good, Tracked, FirstMethod, SwitchMethod;
    var w, start := Ascii(MethodString(m)), Live(q, trace, n);
    MethodBytesAscii(m);
    UptoStep(start, w, i - 1);
    if i == 1 {
      assert Upto(start, w, 0) == start;
      TrackEnds(m);
      StartByte(q, trace, n, w[0]);
    } else {
      MethodReached(q, trace, n, m, i - 1);
      MethodReachedByte(q, Emit(trace, MessageBegin), n, m, i);
    }
  }

  /** The space behind a method ends it iff the whole name was read. */
  lemma MethodEnd(q: GoodParser, trace: seq<Event>, n: nat)
    requires q.state == ReqMethod && Room(q, 1)
    ensures if q.index == |MethodString(q.meth)| then
        var q1 := q.(state := ReqSpacesBeforeUrl, index := q.index + 1, nread := q.nread + 1);
        Good(q1) && Advance(Live(q, trace, n), SP) == Live(q1, trace, n + 1)
      else Advance(Live(q, trace, n), SP) == Failed
  {
    hide Advance, Good, MethodString;
    NoSpaceInMethods(q.meth);
    if q.index == |MethodString(q.meth)| {
      TakesQuietly(q, trace, n, SP, q.(state := ReqSpacesBeforeUrl, index := q.index + 1, nread := q.nread + 1));
    } else {
      Refuses(q, trace, n, SP);
    }
  }

  lemma NoSpaceInMethods(m: Method)
    ensures forall j :: !At(MethodString(m), j, SP)
  {
    MethodBytesAscii(m);
  }

  /** The parser right behind "METHOD ". */
  function BehindMethod(q: Parser, m: Method): Parser {
    var len := |MethodString(m)|;
    InMethod(q, m, len).(state := ReqSpacesBeforeUrl, index := len + 1, nread := q.nread + len + 1)
  }

  /** The name of a method and a space lead behind that method. */
  lemma MethodRead(q: GoodParser, trace: seq<Event>, n: nat, m: Method)
    requires q.state == StartReq && Room(q, |MethodString(m)| + 1)
    ensures Good(BehindMethod(q, m))
    ensures Over(Live(q, trace, n), Ascii(MethodString(m)) + [SP])
      == Live(BehindMethod(q, m), Emit(trace, MessageBegin), n + |MethodString(m)| + 1)
  {
    hide Advance, MethodString, Emit, Good, Tracked;
    var w := Ascii(MethodString(m));
    OverMore(Live(q, trace, n), w, SP);
    TrackedLast(m);
    MethodReached(q, trace, n, m, |w|);
    MethodEnd(InMethod(q, m, |w|), Emit(trace, MessageBegin), n + |w|);
  }

  /** Whatever is accepted up to the space spells the method tracked. */
  lemma MethodSpelled(q: GoodParser, trace: seq<Event>, n: nat, w: seq<byte>)
    requires q.state == StartReq && w != [] && w[0] != CR && w[0] != LF && SP !in w && Room(q, |w| + 1)
    ensures var r := Over(Live(q, trace, n), w + [SP]); r == Failed || (r.Live? && w == Ascii(MethodString(r.q.meth)))
  {
    hide Advance, MethodString, Emit, Good;
    var start := Live(q, trace, n);
    var r := Over(start, w);
    OverMore(start, w, SP);
    MethodPrefix(q, trace, n, w, |w|);
    if r.Live? {
      MethodEnd(r.q, r.trace, r.n);
      if r.q.index == |MethodString(r.q.meth)| {
        assert w == Ascii(MethodString(r.q.meth));
      }
    } else {
      AdvanceFailed(SP);
    }
  }

  /**
    The method recogniser is exact: at the space, the parser holds method `m` iff the bytes before it
    are the name of `m`; any other bytes have been rejected.
  */
  lemma MethodExact(q: GoodParser, trace: seq<Event>, n: nat, w: seq<byte>, m: Method)
    requires q.state == StartReq && w != [] && w[0] != CR && w[0] != LF && SP !in w && Room(q, |w| + 1)
    ensures var r := Over(Live(q, trace, n), w + [SP]);
      && (r == Failed || r.Live?)
      && (r.Live? && r.q.meth == m <==> w == Ascii(MethodString(m)))
      && (w == Ascii(MethodString(m)) ==>
           Good(BehindMethod(q, m)) && r == Live(BehindMethod(q, m), Emit(trace, MessageBegin), n + |w| + 1))
  {
    hide Advance, MethodString, Emit, Good, Over, Ascii;
    MethodSpelled(q, trace, n, w);
    if w == Ascii(MethodString(m)) {
      MethodRead(q, trace, n, m);
    }
  }

  // ---- Header names ----------------------------------------------------------------------------

  predicate IsToken(w: seq<byte>) {
    forall i :: 0 <= i < |w| ==> TokenOf(w[i]) != 0
  }

  /** A name with its letters in lower case. */
  function Lowered(w: seq<byte>): (l: seq<byte>)
    ensures |l| == |w|
  {
    seq(|w|, i requires 0 <= i < |w| => TokenOf(w[i]))
  }

  predicate PrefixOf(l: seq<byte>, word: string) {
    |l| <= |word| && Spells(l, |l|, word)
  }

  /** The sub-state that the name read so far should lead to. */
  function NameAfter(l: seq<byte>): HeaderState {
    if PrefixOf(l, CONNECTION) then
      if |l| == 1 then C else if |l| == 2 then CO else if |l| == 3 then CON
      else if |l| == 10 then Connection else MatchingConnection
    else if PrefixOf(l, CONTENT_LENGTH) then if |l| == 14 then ContentLength else MatchingContentLength
    else if PrefixOf(l, PROXY_CONNECTION) then if |l| == 16 then Connection else MatchingProxyConnection
    else if PrefixOf(l, TRANSFER_ENCODING) then if |l| == 17 then TransferEncoding else MatchingTransferEncoding
    else if PrefixOf(l, UPGRADE) then if |l| == 7 then Upgrade else MatchingUpgrade
    else General
  }

  lemma PrefixSnoc(l: seq<byte>, c: byte, word: string)
    ensures PrefixOf(l + [c], word) <==> PrefixOf(l, word) && At(word, |l|, c)
  {
    if PrefixOf(l + [c], word) {
      forall j | 0 <= j < |l|
        ensures At(word, j, l[j])
      {
        assert At(word, j, (l + [c])[j]);
      }
      assert At(word, |l|, (l + [c])[|l|]);
    }
  }

  /** The five words part ways at their first byte, two of them at their fourth. */
  lemma WordsDiffer(l: seq<byte>)
    requires l != []
    ensures PrefixOf(l, CONNECTION) ==> l[0] == 99 && (|l| >= 2 ==> l[1] == 111) && (|l| >= 3 ==> l[2] == 110) && (|l| >= 4 ==> l[3] == 110)
    ensures PrefixOf(l, CONTENT_LENGTH) ==>
      l[0] == 99 && (|l| >= 2 ==> l[1] == 111) && (|l| >= 3 ==> l[2] == 110) && (|l| >= 4 ==> l[3] == 116)
    ensures PrefixOf(l, PROXY_CONNECTION) ==> l[0] == 112
    ensures PrefixOf(l, TRANSFER_ENCODING) ==> l[0] == 116
    ensures PrefixOf(l, UPGRADE) ==> l[0] == 117
  {
    assert forall word :: PrefixOf(l, word) ==> At(word, 0, l[0]);
    assert forall word :: PrefixOf(l, word) && |l| >= 2 ==> At(word, 1, l[1]);
    assert forall word :: PrefixOf(l, word) && |l| >= 3 ==> At(word, 2, l[2]);
    assert forall word :: PrefixOf(l, word) && |l| >= 4 ==> At(word, 3, l[3]);
  }

  lemma WordLengths()
    ensures |CONNECTION| == 10 && |CONTENT_LENGTH| == 14 && |PROXY_CONNECTION| == 16 && |TRANSFER_ENCODING| == 17 && |UPGRADE| == 7
    ensures forall c :: At(CONNECTION, 0, c) <==> c == 99
    ensures forall c :: At(CONNECTION, 1, c) <==> c == 111
    ensures forall c :: At(CONNECTION, 2, c) <==> c == 110
    ensures forall c :: At(CONNECTION, 3, c) <==> c == 110
    ensures forall c :: At(CONTENT_LENGTH, 0, c) <==> c == 99
    ensures forall c :: At(CONTENT_LENGTH, 1, c) <==> c == 111
    ensures forall c :: At(CONTENT_LENGTH, 2, c) <==> c == 110
    ensures forall c :: At(CONTENT_LENGTH, 3, c) <==> c == 116
    ensures forall c :: At(PROXY_CONNECTION, 0, c) <==> c == 112
    ensures forall c :: At(TRANSFER_ENCODING, 0, c) <==> c == 116
    ensures forall c :: At(UPGRADE, 0, c) <==> c == 117
  {}

  /** The tracked sub-state and index say what was read so far. */
  predicate NameTracked(q: Parser, l: seq<byte>) {
    && l != [] && q.headerState == NameAfter(l)
    && (q.headerState != General && !WholeName(q.headerState) ==> q.index == |l| - 1)
  }

  lemma AtEnd(word: string, i: nat, c: byte)
    requires i >= |word|
    ensures !At(word, i, c)
  {}

  lemma NameStep(q: Parser, l: seq<byte>, c: byte, ch: byte)
    requires NameTracked(q, l) && ch != SP
    ensures NameTracked(MatchName(q, c, ch), l + [c])
  {
    hide PrefixOf, At;
    PrefixSnoc(l, c, CONNECTION);
    PrefixSnoc(l, c, CONTENT_LENGTH);
    PrefixSnoc(l, c, PROXY_CONNECTION);
    PrefixSnoc(l, c, TRANSFER_ENCODING);
    PrefixSnoc(l, c, UPGRADE);
    WordLengths();
    WordsDiffer(l);
    WordsDiffer(l + [c]);
    PrefixFits(l);
    PrefixFits(l + [c]);
    match q.headerState {
      case C => ShortPrefixes(l, c);
      case CO => ShortPrefixes(l, c);
      case CON => ShortPrefixes(l, c);
      case Connection =>
        if |l| == 10 {
          AtEnd(CONNECTION, 10, c);
        } else {
          AtEnd(PROXY_CONNECTION, 16, c);
        }
      case ContentLength => AtEnd(CONTENT_LENGTH, 14, c);
      case TransferEncoding => AtEnd(TRANSFER_ENCODING, 17, c);
      case Upgrade => AtEnd(UPGRADE, 7, c);
      case _ =>
    }
  }

  /** "c", "co" and "con" begin both words. */
  lemma ShortPrefixes(l: seq<byte>, c: byte)
    requires 1 <= |l| <= 3 && PrefixOf(l, CONNECTION)
    ensures PrefixOf(l, CONTENT_LENGTH)
  {
    WordLengths();
    WordsDiffer(l);
    assert Spells(l, |l|, CONTENT_LENGTH);
  }

  lemma PrefixFits(l: seq<byte>)
    ensures PrefixOf(l, CONNECTION) ==> |l| <= 10
    ensures PrefixOf(l, CONTENT_LENGTH) ==> |l| <= 14
    ensures PrefixOf(l, PROXY_CONNECTION) ==> |l| <= 16
    ensures PrefixOf(l, TRANSFER_ENCODING) ==> |l| <= 17
    ensures PrefixOf(l, UPGRADE) ==> |l| <= 7
  {}

  lemma FirstName(q: Parser, c: byte)
    requires q.headerState == FirstNameState(c) && q.index == 0
    ensures NameTracked(q, [c])
  {
    hide At;
    PrefixSnoc([], c, CONNECTION);
    PrefixSnoc([], c, CONTENT_LENGTH);
    PrefixSnoc([], c, PROXY_CONNECTION);
    PrefixSnoc([], c, TRANSFER_ENCODING);
    PrefixSnoc([], c, UPGRADE);
    WordLengths();
    assert [] + [c] == [c];
  }

  /** Inside a name after `i` bytes of `w`, everything but the matcher as at its start. */
  predicate InName(q: Parser, r: Run, trace: seq<Event>, n: nat, w: seq<byte>, i: nat)
    requires 1 <= i <= |w|
  {
    && r.Live? && r.trace == Emit(trace, Data(Field, w[..i])) && r.n == n + i
    && r.q == q.(state := HeaderField, headerState := r.q.headerState, index := r.q.index, nread := q.nread + i)
    && NameTracked(r.q, Lowered(w[..i]))
  }

  lemma LoweredMore(w: seq<byte>, i: nat)
    requires i < |w|
    ensures Lowered(w[..i + 1]) == Lowered(w[..i]) + [TokenOf(w[i])] && w[..i + 1] == w[..i] + [w[i]]
  {}

  lemma NameFirst(q: GoodParser, trace: seq<Event>, n: nat, w: seq<byte>)
    requires q.state == HeaderFieldStart && w != [] && TokenOf(w[0]) != 0 && Room(q, 1)
    ensures InName(q, Advance(Live(q, trace, n), w[0]), trace, n, w, 1)
  {
    hide Arm, Advance, Good, NameTracked, MethodString, Emit;
    var c := TokenOf(w[0]);
    var q1 := q.(nread := q.nread + 1);
    FieldStartArmAt(q1, w[0]);
    var q2 := q1.(index := 0, state := HeaderField, headerState := FirstNameState(c));
    TakesData(q, trace, n, w[0], q2, Field);
    FirstName(q2, c);
    assert w[..1] == [w[0]] && Lowered(w[..1]) == [c];
  }

  lemma NameNext(q: GoodParser, r: Run, trace: seq<Event>, n: nat, w: seq<byte>, i: nat)
    requires 1 <= i < |w| && InName(q, r, trace, n, w, i) && TokenOf(w[i]) != 0 && Room(q, i + 1)
    ensures InName(q, Advance(r, w[i]), trace, n, w, i + 1)
  {
    hide Arm, Advance, Good, NameTracked, NameAfter, MethodString, Emit, MatchName;
    var c := TokenOf(w[i]);
    var q1 := r.q.(nread := r.q.nread + 1);
    FieldArmAt(q1, w[i]);
    TakesData(r.q, r.trace, r.n, w[i], MatchName(q1, c, w[i]), Field);
    TrackedAnyCount(r.q, Lowered(w[..i]), q1.nread);
    NameStep(q1, Lowered(w[..i]), c, w[i]);
    MatchNameShape(q1, c, w[i]);
    LoweredMore(w, i);
    EmitData(trace, Field, w[..i], [w[i]]);
  }

  lemma TrackedAnyCount(q: Parser, l: seq<byte>, k: nat)
    requires NameTracked(q, l)
    ensures NameTracked(q.(nread := k), l)
  {
    hide NameAfter;
  }

  lemma MatchNameShape(q: Parser, c: byte, ch: byte)
    ensures var q1 := MatchName(q, c, ch); q1 == q.(headerState := q1.headerState, index := q1.index)
  {
    hide At;
  }

  lemma {:induction false} NameRun(q: GoodParser, trace: seq<Event>, n: nat, w: seq<byte>, i: nat)
    requires q.state == HeaderFieldStart && 1 <= i <= |w| && IsToken(w) && Room(q, i)
    ensures InName(q, Upto(Live(q, trace, n), w, i), trace, n, w, i)
  {
    hide Advance, Good, InName;
    var start := Live(q, trace, n);
    UptoStep(start, w, i - 1);
    if i == 1 {
      assert Upto(start, w, 0) == start;
      NameFirst(q, trace, n, w);
    } else {
      NameRun(q, trace, n, w, i - 1);
      NameNext(q, Upto(start, w, i - 1), trace, n, w, i - 1);
    }
  }

  /** Right behind "name:". */
  predicate BehindName(q: Parser, q1: Parser, w: seq<byte>) {
    && q1 == q.(state := HeaderValueDiscardWs, headerState := q1.headerState, index := q1.index, nread := q.nread + |w| + 1)
    && w != [] && q1.headerState == NameAfter(Lowered(w))
  }

  /** A whole header name with its colon: the name is delivered and the sub-state is its own. */
  lemma NameRead(q: GoodParser, trace: seq<Event>, n: nat, w: seq<byte>)
    requires q.state == HeaderFieldStart && w != [] && IsToken(w) && Room(q, |w| + 1)
    ensures var r := Over(Live(q, trace, n), w + [COLON]);
      r.Live? && BehindName(q, r.q, w) && r.trace == Emit(trace, Data(Field, w)) && r.n == n + |w| + 1
  {
    hide Arm, Advance, Good, NameAfter, MethodString, Emit;
    var start := Live(q, trace, n);
    OverMore(start, w, COLON);
    NameRun(q, trace, n, w, |w|);
    assert w[..|w|] == w;
    var r := Over(start, w);
    var q1 := r.q.(nread := r.q.nread + 1);
    FieldArmAt(q1, COLON);
    TakesEnd(r.q, r.trace, r.n, COLON, q1.(state := HeaderValueDiscardWs), Field);
    EmitEnd(trace, Field, w);
  }

  /**
    The header-name recogniser is exact, for names of any length: at the colon the sub-state is one of
    the four that matter iff the name, in lower case, is that word.
  */
  lemma NameExact(l: seq<byte>)
    requires l != []
    ensures NameAfter(l) == Connection <==> l == Ascii(CONNECTION) || l == Ascii(PROXY_CONNECTION)
    ensures NameAfter(l) == ContentLength <==> l == Ascii(CONTENT_LENGTH)
    ensures NameAfter(l) == TransferEncoding <==> l == Ascii(TRANSFER_ENCODING)
    ensures NameAfter(l) == Upgrade <==> l == Ascii(UPGRADE)
  {
    hide At, PrefixOf;
    WholePrefix(l, CONNECTION);
    WholePrefix(l, CONTENT_LENGTH);
    WholePrefix(l, PROXY_CONNECTION);
    WholePrefix(l, TRANSFER_ENCODING);
    WholePrefix(l, UPGRADE);
    WordLengths();
    WordsDiffer(l);
    PrefixFits(l);
  }

  lemma WholePrefix(l: seq<byte>, word: string)
    requires forall i :: 0 <= i < |word| ==> word[i] as int < 256
    ensures PrefixOf(l, word) && |l| == |word| <==> l == Ascii(word)
  {
    if PrefixOf(l, word) && |l| == |word| {
      forall i | 0 <= i < |l|
        ensures l[i] == Ascii(word)[i]
      {
        assert At(word, i, l[i]);
      }
    }
  }
}
