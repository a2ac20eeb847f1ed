/** The way back, second part: a head that is reported complete begins with a request line. */
module HttpReportedLine {
  import opened Bytes
  import opened HttpTypes
  import opened HttpStep
  import opened HttpRun
  import opened HttpFeed
  import opened HttpNames
  import opened HttpHeaders
  import opened HttpRequest
  import opened HttpReported

  /** How far it is to the first byte at which `stop` holds. */
  function Find(s: seq<byte>, stop: byte -> bool): (i: nat)
    ensures i <= |s| && (forall j :: 0 <= j < i ==> !stop(s[j])) && (i < |s| ==> stop(s[i]))
  {
    if s == [] || stop(s[0]) then 0 else 1 + Find(s[1..], stop)
  }

  // ---- The method ------------------------------------------------------------------------------

  lemma LineEndsFirst(q: GoodParser, trace: seq<Event>, n: nat, s: seq<byte>, k: nat) returns (before: seq<byte>)
    requires q.state == StartReq && Room(q, |s|) && Reports(trace) == k && Reported(Over(Live(q, trace, n), s), k)
    ensures before < s && (forall i :: 0 <= i < |before| ==> LineEnd(before[i])) && !LineEnd(s[|before|])
  {
    hide Advance, Good, MethodString, Over;
    var i := Find(s, (b: byte) => !LineEnd(b));
    before := s[..i];
    if i == |s| {
      PassedOver(q, trace, n, s);
    }
  }

  /** The letters up to the first space are the name of a method. */
  lemma MethodFirst(q: GoodParser, trace: seq<Event>, n: nat, s: seq<byte>, k: nat) returns (m: Method)
    requires q.state == StartReq && Room(q, |s|) && Reports(trace) == k && Reported(Over(Live(q, trace, n), s), k)
    requires s != [] && !LineEnd(s[0])
    ensures Ascii(MethodString(m)) + [SP] <= s
  {
    hide Advance, Good, MethodString, Over, Emit, Ascii;
    var start, i := Live(q, trace, n), Find(s, (b: byte) => b == SP);
    Peel(q, trace, n, s, k);
    NoSpaceFirst(q, trace, n, s);
    var w := s[..i];
    if i == |s| {
      assert w == s;
      NeverSpaced(q, trace, n, s, k);
    } else {
      assert s == w + [SP] + s[i + 1..];
      PartTaken(start, w + [SP], s[i + 1..], k);
      MethodSpelled(q, trace, n, w);
      m := Over(start, w + [SP]).q.meth;
    }
  }

  lemma NoSpaceFirst(q: GoodParser, trace: seq<Event>, n: nat, s: seq<byte>)
    requires q.state == StartReq && s != [] && !LineEnd(s[0]) && Room(q, 1) && Advance(Live(q, trace, n), s[0]) != Failed
    ensures s[0] != SP
  {
    hide Advance, Good, MethodString, Emit;
    StartByte(q, trace, n, s[0]);
  }

  lemma NeverSpaced(q: GoodParser, trace: seq<Event>, n: nat, w: seq<byte>, k: nat)
    requires q.state == StartReq && w != [] && !LineEnd(w[0]) && SP !in w && Room(q, |w|) && Reports(trace) == k
    ensures !Reported(Over(Live(q, trace, n), w), k)
  {
    hide Advance, Good, MethodString, Emit;
    MethodPrefix(q, trace, n, w, |w|);
    ReportsEmit(trace, MessageBegin);
  }

  // ---- The target ------------------------------------------------------------------------------

  /** Spaces that are passed over. */
  lemma SpacesFirst(q: GoodParser, trace: seq<Event>, n: nat, s: seq<byte>, k: nat) returns (spaces: seq<byte>)
    requires q.state == ReqSpacesBeforeUrl || q.state == ReqHttpStart
    requires Room(q, |s|) && Reports(trace) == k && Reported(Over(Live(q, trace, n), s), k)
    ensures spaces < s && (forall i :: 0 <= i < |spaces| ==> spaces[i] == SP) && s[|spaces|] != SP
  {
    hide Advance, Good, MethodString, Over;
    var i := Find(s, (b: byte) => b != SP);
    spaces := s[..i];
    if i == |s| {
      PassedOver(q, trace, n, s);
    }
  }

  predicate EndsTarget(b: byte) {
    b == SP || LineEnd(b)
  }

  lemma TargetEndsAtBlank(s: State, b: byte)
    requires EndsTarget(b)
    ensures ParseUrlChar(s, b) == Dead
  {}

  /** A byte that no URL state takes is refused. */
  lemma TargetRefused(q: GoodParser, trace: seq<Event>, n: nat, b: byte)
    requires Room(q, 1) && (if q.state == ReqSpacesBeforeUrl then b != SP else UrlState(q.state))
    requires ParseUrlChar(if q.state == ReqSpacesBeforeUrl then UrlStart(q.meth) else q.state, b) == Dead
    requires EndsTarget(b) ==> q.state == ReqSpacesBeforeUrl || InPrefix(q.state)
    ensures Advance(Live(q, trace, n), b) == Failed
  {
    hide Arm, Advance, Good, MethodString, ParseUrlChar;
    var q1 := q.(nread := q.nread + 1);
    if q.state == ReqSpacesBeforeUrl {
      UrlStartArmAt(q1, b);
    } else {
      UrlArmAt(q1, b);
    }
    Refuses(q, trace, n, b);
  }

  /** As long as the bytes of a target are taken, the URL states take them. */
  lemma {:induction false} TargetAlive(q: GoodParser, trace: seq<Event>, n: nat, t: seq<byte>, i: nat)
    requires q.state == ReqSpacesBeforeUrl && i <= |t| && Room(q, |t|) && Upto(Live(q, trace, n), t, i) != Failed
    requires forall j :: 0 <= j < |t| ==> !EndsTarget(t[j])
    ensures UrlAfter(UrlStart(q.meth), t[..i]) != Dead
  {
    hide Advance, Good, MethodString, Emit, ParseUrlChar, UrlAfter;
    var start := Live(q, trace, n);
    NothingRead(UrlStart(q.meth), t);
    if i == 0 {
    } else {
      UptoStep(start, t, i - 1);
      if Upto(start, t, i - 1) == Failed {
        AdvanceFailed(t[i - 1]);
      }
      TargetAlive(q, trace, n, t, i - 1);
      UrlAfterMore(UrlStart(q.meth), t, i);
      if UrlAfter(UrlStart(q.meth), t[..i]) == Dead {
        TargetDies(q, trace, n, t, i - 1);
      }
    }
  }

  lemma UrlAfterMore(s: State, t: seq<byte>, i: nat)
    requires 1 <= i <= |t|
    ensures UrlAfter(s, t[..i]) == ParseUrlChar(UrlAfter(s, t[..i - 1]), t[i - 1])
  {
    hide ParseUrlChar;
    assert t[..i][..i - 1] == t[..i - 1];
  }

  lemma TargetDies(q: GoodParser, trace: seq<Event>, n: nat, t: seq<byte>, i: nat)
    requires q.state == ReqSpacesBeforeUrl && i < |t| && Room(q, |t|) && !EndsTarget(t[i])
    requires UrlAfter(UrlStart(q.meth), t[..i]) != Dead && ParseUrlChar(UrlAfter(UrlStart(q.meth), t[..i]), t[i]) == Dead
    ensures Advance(Upto(Live(q, trace, n), t, i), t[i]) == Failed
  {
    hide Advance, Good, MethodString, Emit, ParseUrlChar, UrlAfter;
    var start := Live(q, trace, n);
    if i == 0 {
      assert Upto(start, t, 0) == start;
      NothingRead(UrlStart(q.meth), t);
      TargetRefused(q, trace, n, t[0]);
    } else {
      InTargetState(q, t, i);
      UptoPart(start, t, i);
      TargetRun(q, trace, n, t[..i], i);
      assert t[..i][..i] == t[..i];
      var r := Upto(start, t, i);
      TargetRefused(r.q, r.trace, r.n, t[i]);
    }
  }

  lemma InTargetState(q: Parser, t: seq<byte>, i: nat)
    requires 1 <= i <= |t| && UrlAfter(UrlStart(q.meth), t[..i]) != Dead
    ensures UrlState(UrlAfter(UrlStart(q.meth), t[..i]))
  {
    hide ParseUrlChar;
    UrlAfterMore(UrlStart(q.meth), t, i);
  }

  lemma UptoPart(r: Run, t: seq<byte>, i: nat)
    requires i <= |t|
    ensures Upto(r, t, i) == Upto(r, t[..i], i)
  {
    hide Advance;
    assert t == t[..i] + t[i..];
    FoldPrefix(Advance, r, t[..i], t[i..], i);
  }

  /** What stands before the next space or line end is a target. */
  lemma TargetFirst(q: GoodParser, trace: seq<Event>, n: nat, s: seq<byte>, k: nat) returns (t: seq<byte>)
    requires q.state == ReqSpacesBeforeUrl && Room(q, |s|) && Reports(trace) == k && Reported(Over(Live(q, trace, n), s), k)
    requires s != [] && s[0] != SP
    ensures t < s && LegalTarget(q.meth, t) && EndsTarget(s[|t|])
  {
    hide Advance, Good, MethodString, Over, Emit, ParseUrlChar, UrlAfter;
    var start, i := Live(q, trace, n), Find(s, EndsTarget);
    t := s[..i];
    assert s == t + s[i..];
    Peel(q, trace, n, s, k);
    if i == 0 {
      TargetEndsAtBlank(UrlStart(q.meth), s[0]);
      TargetRefused(q, trace, n, s[0]);
      assert false;
    }
    PartTaken(start, t, s[i..], k);
    WholeAlive(q, trace, n, t);
    ReportsEmit(trace, Data(Url, t));
    var q1 := InTarget(q, t, i);
    Peel(q1, Emit(trace, Data(Url, t)), n + i, s[i..], k);
    if InPrefix(q1.state) {
      TargetEndsAtBlank(q1.state, s[i]);
      TargetRefused(q1, Emit(trace, Data(Url, t)), n + i, s[i]);
    }
  }

  lemma WholeAlive(q: GoodParser, trace: seq<Event>, n: nat, t: seq<byte>)
    requires q.state == ReqSpacesBeforeUrl && Room(q, |t|) && Over(Live(q, trace, n), t) != Failed
    requires t != [] && forall j :: 0 <= j < |t| ==> !EndsTarget(t[j])
    ensures var q1 := InTarget(q, t, |t|);
      && UrlAfter(UrlStart(q.meth), t) == q1.state && UrlState(q1.state) && Good(q1)
      && Over(Live(q, trace, n), t) == Live(q1, Emit(trace, Data(Url, t)), n + |t|)
  {
    hide Advance, Good, MethodString, Emit, ParseUrlChar, UrlAfter;
    TargetAlive(q, trace, n, t, |t|);
    InTargetState(q, t, |t|);
    assert t[..|t|] == t;
    TargetRun(q, trace, n, t, |t|);
  }

  // ---- The version -----------------------------------------------------------------------------

  /** A byte that the arms of the version take, and the parser behind it. */
  lemma VersionPeel(q: GoodParser, trace: seq<Event>, n: nat, s: seq<byte>, k: nat) returns (q1: GoodParser)
    requires VersionState(q.state) && Room(q, |s|) && Reports(trace) == k && Reported(Over(Live(q, trace, n), s), k)
    ensures s != [] && VersionArm(q.(nread := q.nread + 1), s[0]) == Next(q1, NoMark, []) && q1.nread == q.nread + 1
    ensures q1 == q.(state := q1.state, major := q1.major, minor := q1.minor, nread := q.nread + 1)
    ensures Reported(Over(Live(q1, trace, n + 1), s[1..]), k)
  {
    hide Arm, Advance, Good, MethodString, VersionArm;
    Peel(q, trace, n, s, k);
    var q0 := q.(nread := q.nread + 1);
    VersionArmAt(q0, s[0]);
    VersionShape(q0, s[0]);
    if VersionArm(q0, s[0]).Bad? {
      Refuses(q, trace, n, s[0]);
    } else {
      var a := VersionArm(q0, s[0]);
      TakesQuietly(q, trace, n, s[0], a.q);
      q1 := a.q;
    }
  }

  lemma VersionShape(q: Parser, ch: byte)
    requires VersionState(q.state)
    ensures var a := VersionArm(q, ch);
      a.Bad? || a == Next(q.(state := a.q.state, major := a.q.major, minor := a.q.minor), NoMark, [])
  {}

  /** Three of the bytes that are fixed by their states. */
  lemma WordPeel(q: GoodParser, trace: seq<Event>, n: nat, s: seq<byte>, k: nat) returns (q1: GoodParser, p: Protocol, i: nat)
    requires q.state == ReqHttpStart && Room(q, |s|) && Reports(trace) == k && Reported(Over(Live(q, trace, n), s), k)
    requires s != [] && s[0] != SP
    ensures i <= |s| && s[..i] == (if p == Http then [72, 84, 84, 80] else [73, 67, 69]) && p != Unversioned
    ensures p == Ice ==> q.meth == SOURCE
    ensures q1 == q.(state := ReqHttpHTTP, nread := q.nread + i) && Reported(Over(Live(q1, trace, n + i), s[i..]), k)
  {
    hide Advance, Good, Over, VersionArm, Reported, Fixed, VersionState;
    var a := LetterPeel(q, trace, n, s, k);
    Chain();
    var b := FixedPeel(a, trace, n + 1, s[1..], k);
    var c := FixedPeel(b, trace, n + 2, s[2..], k);
    if a.state == ReqHttpH {
      q1 := FixedPeel(c, trace, n + 3, s[3..], k);
      p, i := Http, 4;
    } else {
      q1, p, i := c, Ice, 3;
    }
  }

  /** The byte that a state asks for, and the state behind it. */
  function Fixed(s: State): Option<(byte, State)> {
    match s
    case ReqHttpH => Some((84, ReqHttpHT))
    case ReqHttpHT => Some((84, ReqHttpHTT))
    case ReqHttpHTT => Some((80, ReqHttpHTTP))
    case ReqHttpI => Some((67, ReqHttpIC))
    case ReqHttpIC => Some((69, ReqHttpHTTP))
    case ReqHttpHTTP => Some((47, ReqHttpMajor))
    case ReqHttpDot => Some((46, ReqHttpMinor))
    case _ => None
  }

  lemma Chain()
    ensures Fixed(ReqHttpH) == Some((84, ReqHttpHT)) && Fixed(ReqHttpHT) == Some((84, ReqHttpHTT))
    ensures Fixed(ReqHttpHTT) == Some((80, ReqHttpHTTP)) && Fixed(ReqHttpI) == Some((67, ReqHttpIC))
    ensures Fixed(ReqHttpIC) == Some((69, ReqHttpHTTP)) && Fixed(ReqHttpHTTP) == Some((47, ReqHttpMajor))
    ensures Fixed(ReqHttpDot) == Some((46, ReqHttpMinor))
  {}

  lemma FixedPeel(q: GoodParser, trace: seq<Event>, n: nat, s: seq<byte>, k: nat) returns (q1: GoodParser)
    requires Fixed(q.state).Some? && Room(q, |s|) && Reports(trace) == k && Reported(Over(Live(q, trace, n), s), k)
    ensures s != [] && s[0] == Fixed(q.state).value.0 && q1 == q.(state := Fixed(q.state).value.1, nread := q.nread + 1)
    ensures Reported(Over(Live(q1, trace, n + 1), s[1..]), k)
  {
    hide Advance, Good, Over, Reported;
    q1 := VersionPeel(q, trace, n, s, k);
  }

  lemma LetterPeel(q: GoodParser, trace: seq<Event>, n: nat, s: seq<byte>, k: nat) returns (q1: GoodParser)
    requires q.state == ReqHttpStart && Room(q, |s|) && Reports(trace) == k && Reported(Over(Live(q, trace, n), s), k)
    requires s != [] && s[0] != SP
    ensures q1.state == ReqHttpH || q1.state == ReqHttpI
    ensures if q1.state == ReqHttpH then s[0] == 72 else s[0] == 73 && q.meth == SOURCE
    ensures q1 == q.(state := q1.state, nread := q.nread + 1) && Reported(Over(Live(q1, trace, n + 1), s[1..]), k)
  {
    hide Advance, Good, Over, Reported;
    q1 := VersionPeel(q, trace, n, s, k);
  }

  lemma DigitPeel(q: GoodParser, trace: seq<Event>, n: nat, s: seq<byte>, k: nat) returns (q1: GoodParser, d: nat)
    requires q.state == ReqHttpMajor || q.state == ReqHttpMinor
    requires Room(q, |s|) && Reports(trace) == k && Reported(Over(Live(q, trace, n), s), k)
    ensures s != [] && s[0] == 48 + d && d <= 9 && Reported(Over(Live(q1, trace, n + 1), s[1..]), k)
    ensures q1 == if q.state == ReqHttpMajor then q.(state := ReqHttpDot, major := d, nread := q.nread + 1)
      else q.(state := ReqHttpEnd, minor := d, nread := q.nread + 1)
  {
    hide Advance, Good, Over, Reported;
    q1 := VersionPeel(q, trace, n, s, k);
    d := s[0] - 48;
  }

  lemma NumberPeel(q: GoodParser, trace: seq<Event>, n: nat, s: seq<byte>, k: nat) returns (q1: GoodParser)
    requires q.state == ReqHttpHTTP && Room(q, |s|) && Reports(trace) == k && Reported(Over(Live(q, trace, n), s), k)
    ensures q1 == q.(state := ReqHttpEnd, major := q1.major, minor := q1.minor, nread := q.nread + 4)
    ensures q1.major <= 9 && q1.minor <= 9 && [47, 48 + q1.major, 46, 48 + q1.minor] <= s
    ensures Reported(Over(Live(q1, trace, n + 4), s[4..]), k)
  {
    hide Advance, Good, Over, VersionArm, Reported, Fixed, VersionState;
    Chain();
    var major, minor, b;
    var a := FixedPeel(q, trace, n, s, k);
    b, major := DigitPeel(a, trace, n + 1, s[1..], k);
    var c := FixedPeel(b, trace, n + 2, s[2..], k);
    q1, minor := DigitPeel(c, trace, n + 3, s[3..], k);
    assert s[3..][1..] == s[4..];
  }

  /** An end of line: a line feed, or a carriage return that a line feed follows. */
  lemma LineEndPeel(q: GoodParser, trace: seq<Event>, n: nat, s: seq<byte>, k: nat) returns (bare: bool)
    requires q.state == ReqHttpEnd && Room(q, |s|) && Reports(trace) == k && Reported(Over(Live(q, trace, n), s), k)
    ensures Ending(bare) <= s
  {
    hide Arm, Advance, Good, MethodString, Over;
    var a := VersionPeel(q, trace, n, s, k);
    bare := s[0] == LF;
    if !bare {
      var b := VersionPeel(a, trace, n + 1, s[1..], k);
    }
  }

  lemma VersionFirst(q: GoodParser, trace: seq<Event>, n: nat, s: seq<byte>, k: nat) returns (p: Protocol, major: nat, minor: nat, bare: bool)
    requires q.state == ReqHttpStart && Room(q, |s|) && Reports(trace) == k && Reported(Over(Live(q, trace, n), s), k)
    requires s != [] && s[0] != SP
    ensures major <= 9 && minor <= 9 && p != Unversioned && (p == Ice ==> q.meth == SOURCE)
    ensures VersionWire(p, major, minor) + Ending(bare) <= s
  {
    hide Advance, Good, Over, VersionArm, Ending;
    var q1, i;
    q1, p, i := WordPeel(q, trace, n, s, k);
    var q2 := NumberPeel(q1, trace, n + i, s[i..], k);
    assert s[i..][4..] == s[i + 4..];
    bare := LineEndPeel(q2, trace, n + i + 4, s[i + 4..], k);
    major, minor := q2.major, q2.minor;
    assert s == s[..i] + s[i..][..4] + s[i + 4..];
  }

  // ---- The request line ------------------------------------------------------------------------

  /** The method with what stands around it, and the parser behind it. */
  lemma MethodPart(q: GoodParser, trace: seq<Event>, n: nat, s: seq<byte>, k: nat)
      returns (before: seq<byte>, m: Method, first: seq<byte>, q1: GoodParser, t1: seq<Event>)
    requires q.state == StartReq && Room(q, |s|) && Reports(trace) == k && Reported(Over(Live(q, trace, n), s), k)
    ensures LegalSpacing(Spacing(before, first, []))
    ensures var w := before + (Ascii(MethodString(m)) + [SP]) + first;
      && w < s && s[|w|] != SP && q1.state == ReqSpacesBeforeUrl && q1.meth == m && q1.nread == q.nread + |w|
      && Reports(t1) == k && Reported(Over(Live(q1, t1, n + |w|), s[|w|..]), k)
  {
    hide Advance, Good, MethodString, Over, Emit, Ascii, Reported;
    var start := Live(q, trace, n);
    before := LineEndsFirst(q, trace, n, s, k);
    var i := |before|;
    assert s == before + s[i..];
    PartTaken(start, before, s[i..], k);
    PassedOver(q, trace, n, before);
    var r := Over(start, before);
    m := MethodFirst(r.q, trace, n + i, s[i..], k);
    var w := Ascii(MethodString(m)) + [SP];
    assert s[i..] == w + s[i..][|w|..];
    PartTaken(r, w, s[i..][|w|..], k);
    MethodFits(m);
    MethodExact(r.q, trace, n + i, Ascii(MethodString(m)), m);
    ReportsEmit(trace, MessageBegin);
    var r1 := Over(r, w);
    first := SpacesFirst(r1.q, r1.trace, r1.n, s[i..][|w|..], k);
    var rest := s[i..][|w|..];
    assert rest == first + rest[|first|..];
    PartTaken(r1, first, rest[|first|..], k);
    PassedOver(r1.q, r1.trace, r1.n, first);
    q1, t1 := Over(r1, first).q, r1.trace;
    assert s == before + w + first + rest[|first|..];
    assert s[|before + w + first|..] == rest[|first|..];
  }

  /** The target and the version, if there is one. */
  lemma TargetPart(q: GoodParser, trace: seq<Event>, n: nat, s: seq<byte>, k: nat) returns (r: Request)
    requires q.state == ReqSpacesBeforeUrl && Room(q, |s|) && Reports(trace) == k && Reported(Over(Live(q, trace, n), s), k)
    requires s != [] && s[0] != SP
    ensures r.meth == q.meth && LegalTarget(q.meth, r.target) && LegalProtocol(r)
    ensures r.spacing.before == [] && r.spacing.first == [] && LegalSpacing(r.spacing) && BehindMethodWire(r) <= s
  {
    hide Advance, Good, MethodString, Over, LegalTarget, Reported, VersionWire;
    var t := TargetFirst(q, trace, n, s, k);
    if s[|t|] != SP {
      var bare := TargetLineEnds(q, trace, n, s, t, k);
      r := Request(q.meth, t, Unversioned, 0, 9, TIGHT, bare, [], false);
      NoSpacing();
    } else {
      var q1, t1 := BehindTarget(q, trace, n, s, t, k);
      var i := |t| + 1;
      var second := SpacesFirst(q1, t1, n + i, s[i..], k);
      var j := i + |second|;
      assert s[i..] == second + s[j..];
      PartTaken(Live(q1, t1, n + i), second, s[j..], k);
      PassedOver(q1, t1, n + i, second);
      var p, major, minor, bare := VersionFirst(Over(Live(q1, t1, n + i), second).q, t1, n + j, s[j..], k);
      r := Request(q.meth, t, p, major, minor, Spacing([], [], second), bare, [], false);
      assert s == t + [SP] + second + s[j..];
      assert BehindMethodWire(r) == (t + [SP] + second) + (VersionWire(p, major, minor) + Ending(bare));
    }
  }

  lemma NoSpacing()
    ensures LegalSpacing(TIGHT)
  {}

  lemma BehindTarget(q: GoodParser, trace: seq<Event>, n: nat, s: seq<byte>, t: seq<byte>, k: nat)
      returns (q1: GoodParser, t1: seq<Event>)
    requires q.state == ReqSpacesBeforeUrl && Room(q, |s|) && Reports(trace) == k && Reported(Over(Live(q, trace, n), s), k)
    requires t < s && LegalTarget(q.meth, t) && s[|t|] == SP
    ensures q1 == q.(state := ReqHttpStart, nread := q.nread + |t| + 1) && Reports(t1) == k
    ensures Reported(Over(Live(q1, t1, n + |t| + 1), s[|t| + 1..]), k)
  {
    hide Advance, Good, MethodString, Over, LegalTarget, Reported, Emit;
    assert s == (t + [SP]) + s[|t| + 1..];
    PartTaken(Live(q, trace, n), t + [SP], s[|t| + 1..], k);
    TargetRead(q, trace, n, t);
    ReportsEmit(trace, Data(Url, t));
    q1, t1 := q.(state := ReqHttpStart, nread := q.nread + |t| + 1), Emit(trace, Data(Url, t));
  }

  /** A target that ends its line. */
  lemma TargetLineEnds(q: GoodParser, trace: seq<Event>, n: nat, s: seq<byte>, t: seq<byte>, k: nat) returns (bare: bool)
    requires q.state == ReqSpacesBeforeUrl && Room(q, |s|) && Reports(trace) == k && Reported(Over(Live(q, trace, n), s), k)
    requires t < s && LegalTarget(q.meth, t) && LineEnd(s[|t|])
    ensures t + Ending(bare) <= s
  {
    hide Advance, Good, MethodString, Over, LegalTarget, Reported, Emit, VersionArm;
    var i := |t|;
    bare := s[i] == LF;
    assert s == t + s[i..];
    PartTaken(Live(q, trace, n), t, s[i..], k);
    WholeTarget(q, trace, n, t);
    ReportsEmit(trace, Data(Url, t));
    if !bare {
      var q1, t1 := InTarget(q, t, i), Emit(trace, Data(Url, t));
      Peel(q1, t1, n + i, s[i..], k);
      TargetEndsAt(q1, t1, n + i, CR);
      ReportsEmit(t1, Data(Url, []));
      assert s[i..][1..] == s[i + 1..];
      var r := Advance(Live(q1, t1, n + i), CR);
      FeedFollows(r.q, r.trace, r.n, s[i + 1..], k);
    }
  }

  lemma FeedFollows(q: GoodParser, trace: seq<Event>, n: nat, s: seq<byte>, k: nat)
    requires q.state == ReqLineAlmostDone && Room(q, |s|) && Reports(trace) == k && Reported(Over(Live(q, trace, n), s), k)
    ensures s != [] && s[0] == LF
  {
    hide Advance, Good, MethodString, Over, Reported;
    var q1 := VersionPeel(q, trace, n, s, k);
  }

  /** Whatever is reported as a head begins with the line of a request. */
  lemma LineFirst(q: GoodParser, trace: seq<Event>, n: nat, s: seq<byte>, k: nat) returns (r: Request)
    requires q.state == StartReq && Room(q, |s|) && Reports(trace) == k && Reported(Over(Live(q, trace, n), s), k)
    ensures LegalTarget(r.meth, r.target) && LegalProtocol(r) && LegalSpacing(r.spacing) && LineWire(r) <= s
  {
    hide Advance, Good, MethodString, Over, LegalTarget, Reported, BehindMethodWire, Ascii;
    var before, m, first, q1, t1 := MethodPart(q, trace, n, s, k);
    var w := before + (Ascii(MethodString(m)) + [SP]) + first;
    var r1 := TargetPart(q1, t1, n + |w|, s[|w|..], k);
    r := r1.(spacing := Spacing(before, first, r1.spacing.second));
    SameBehind(r, r1);
    assert s == w + s[|w|..];
  }

  lemma SameBehind(r: Request, r1: Request)
    requires r == r1.(spacing := r.spacing) && r.spacing.second == r1.spacing.second && r.major <= 9 && r.minor <= 9
    ensures BehindMethodWire(r) == BehindMethodWire(r1)
  {}
}
