/** The URLs that `http_parser_parse_url` accepts are exactly those composed of legal parts. */
module UrlAccepted {
  import opened Bytes
  import opened HttpTypes
  import opened HttpStep
  import opened HttpLengths
  import opened Url
  import opened UrlCompose
  import opened UrlLanguage

  // ---- Following the second pass ---------------------------------------------------------------

  /** A zone identifier has begun behind the address. */
  ghost predicate InZone(h: seq<byte>) {
    exists k :: 0 <= k < |h| && LiteralAt(h, k)
  }

  predicate InUser(s: HostState) {
    s == UserinfoStart || s == InUserinfo
  }

  /** The text that an authority has come to in a state of the second pass. */
  function HostSpelled(a: Authority, s: HostState): seq<byte> {
    match s
    case UserinfoStart | InUserinfo => if a.userinfo.Some? then a.userinfo.value else []
    case HostStart => UserText(a)
    case InHost => UserText(a) + a.host
    case V6Start => UserText(a) + [91]
    case V6 | V6ZoneStart | V6Zone => UserText(a) + ([91] + a.host)
    case V6End | PortStart | InPort => AuthorityText(a)
    case HostDead => []
  }

  ghost predicate HostName(a: Authority) {
    a.host != [] && if a.literal then LegalLiteral(a.host) else All(a.host, IsHostChar)
  }

  /** What is known of it there. */
  ghost predicate HostKnown(at: bool, a: Authority, s: HostState) {
    && a.userinfo.Some? == at && (at ==> All(a.userinfo.value, IsUserinfoChar))
    && match s
       case UserinfoStart => at && a == NO_HOST.(userinfo := Some([]))
       case InUserinfo => at && a == NO_HOST.(userinfo := a.userinfo)
       case HostStart => a == NO_HOST.(userinfo := a.userinfo)
       case InHost => a == NO_HOST.(userinfo := a.userinfo, host := a.host) && a.host != [] && All(a.host, IsHostChar)
       case V6Start => a == NO_HOST.(userinfo := a.userinfo, literal := true)
       case V6 => a.literal && a.port.None? && a.host != [] && All(a.host, V6Char)
       case V6ZoneStart =>
         a.literal && a.port.None? && |a.host| > 1 && All(a.host[..|a.host| - 1], V6Char) && a.host[|a.host| - 1] == 37
       case V6Zone => a.literal && a.port.None? && InZone(a.host)
       case V6End => a.literal && a.port.None? && HostName(a)
       case PortStart => a.port == Some([]) && HostName(a)
       case InPort => a.port.Some? && a.port.value != [] && Digits(a.port.value) && HostName(a)
       case HostDead => false
  }

  const NO_HOST: Authority := Authority(None, [], false, None)

  /** One more byte. */
  function Grown(a: Authority, s: HostState, ch: byte): Authority {
    match s
    case UserinfoStart | InUserinfo => if ch == 64 then a else a.(userinfo := Some((if a.userinfo.Some? then a.userinfo.value else []) + [ch]))
    case HostStart => if ch == 91 then a.(literal := true) else a.(host := [ch])
    case InHost => if ch == COLON then a.(port := Some([])) else a.(host := a.host + [ch])
    case V6Start => a.(host := [ch])
    case V6 | V6ZoneStart | V6Zone => if ch == 93 then a else a.(host := a.host + [ch])
    case V6End => a.(port := Some([]))
    case PortStart | InPort => a.(port := Some((if a.port.Some? then a.port.value else []) + [ch]))
    case HostDead => a
  }

  ghost predicate Grows(at: bool, a: Authority, s: HostState, ch: byte) {
    var s1, a1 := HostChar(s, ch), Grown(a, s, ch);
    HostKnown(at, a1, s1) && HostSpelled(a1, s1) == HostSpelled(a, s) + [ch]
  }

  lemma NoneAll(p: byte -> bool)
    ensures All([], p)
  {}

  lemma UserGrows(at: bool, a: Authority, s: HostState, ch: byte)
    requires HostKnown(at, a, s) && InUser(s) && HostChar(s, ch) != HostDead
    ensures Grows(at, a, s, ch)
  {
    AllSnoc(a.userinfo.value, ch, IsUserinfoChar);
    NoneAll(IsUserinfoChar);
    hide All;
    assert [] + [ch] == [ch];
  }

  lemma NameBegins(at: bool, a: Authority, ch: byte)
    requires HostKnown(at, a, HostStart) && HostChar(HostStart, ch) != HostDead
    ensures Grows(at, a, HostStart, ch)
  {
    SameUser(a, Grown(a, HostStart, ch));
    OneAll(ch, IsHostChar);
    hide UserText, All;
  }

  lemma OneAll(ch: byte, p: byte -> bool)
    ensures All([ch], p) <==> p(ch)
  {
    assert [ch][0] == ch;
  }

  lemma NameGrows(at: bool, a: Authority, ch: byte)
    requires HostKnown(at, a, InHost) && HostChar(InHost, ch) != HostDead
    ensures Grows(at, a, InHost, ch)
  {
    var user := UserText(a);
    SameUser(a, Grown(a, InHost, ch));
    AllSnoc(a.host, ch, IsHostChar);
    hide UserText, All;
    assert user + a.host + [ch] == user + (a.host + [ch]);
    assert user + a.host + ([COLON] + []) == user + a.host + [COLON];
  }

  lemma SameUser(a: Authority, a1: Authority)
    requires a1.userinfo == a.userinfo
    ensures UserText(a1) == UserText(a)
  {}

  lemma LiteralBegins(at: bool, a: Authority, ch: byte)
    requires HostKnown(at, a, V6Start) && HostChar(V6Start, ch) != HostDead
    ensures Grows(at, a, V6Start, ch)
  {
    var user := UserText(a);
    assert UserText(Grown(a, V6Start, ch)) == user;
    hide UserText;
    assert user + [91] + [ch] == user + ([91] + [ch]);
  }

  lemma LiteralGrows(at: bool, a: Authority, ch: byte)
    requires HostKnown(at, a, V6) && HostChar(V6, ch) != HostDead
    ensures Grows(at, a, V6, ch)
  {
    var user, h := UserText(a), a.host;
    assert UserText(Grown(a, V6, ch)) == user;
    AllSnoc(h, ch, V6Char);
    assert (h + [ch])[..|h|] == h;
    if ch == 93 {
      WholeLiteral(h);
    }
    hide UserText, All, LegalLiteral, V6Char;
    assert user + ([91] + h) + [ch] == user + ([91] + (h + [ch]));
    assert user + ([91] + h + [93]) + [] == user + ([91] + h) + [93];
  }

  lemma WholeLiteral(h: seq<byte>)
    requires h != [] && All(h, V6Char)
    ensures LegalLiteral(h)
  {
    assert h[..|h|] == h;
    assert LiteralAt(h, |h|);
  }

  lemma ZoneOpens(at: bool, a: Authority, ch: byte)
    requires HostKnown(at, a, V6ZoneStart) && HostChar(V6ZoneStart, ch) != HostDead
    ensures Grows(at, a, V6ZoneStart, ch)
  {
    SameUser(a, Grown(a, V6ZoneStart, ch));
    ZoneBegins(a.host, ch);
    hide UserText, All, InZone;
    BracketSnoc(UserText(a), a.host, ch);
  }

  lemma ZoneGrows(at: bool, a: Authority, ch: byte)
    requires HostKnown(at, a, V6Zone) && HostChar(V6Zone, ch) != HostDead
    ensures Grows(at, a, V6Zone, ch)
  {
    SameUser(a, Grown(a, V6Zone, ch));
    ZoneIsLiteral(a.host);
    if ch != 93 {
      ZoneMore(a.host, ch);
    }
    hide UserText, All, InZone, LegalLiteral;
    BracketSnoc(UserText(a), a.host, ch);
    assert UserText(a) + ([91] + a.host + [93]) + [] == UserText(a) + ([91] + a.host) + [93];
  }

  lemma BracketSnoc(user: seq<byte>, h: seq<byte>, ch: byte)
    ensures user + ([91] + h) + [ch] == user + ([91] + (h + [ch]))
  {}

  lemma ZoneIsLiteral(h: seq<byte>)
    requires InZone(h)
    ensures LegalLiteral(h) && h != []
  {
    var k :| 0 <= k < |h| && LiteralAt(h, k);
  }

  lemma ZoneBegins(h: seq<byte>, ch: byte)
    requires |h| > 1 && All(h[..|h| - 1], V6Char) && h[|h| - 1] == 37 && ZoneChar(ch)
    ensures InZone(h + [ch])
  {
    var h1, k := h + [ch], |h| - 1;
    assert h1[..k] == h[..k] && h1[k + 1..] == [ch];
    assert LiteralAt(h1, k);
  }

  lemma ZoneMore(h: seq<byte>, ch: byte)
    requires InZone(h) && ZoneChar(ch)
    ensures InZone(h + [ch])
  {
    var k :| 0 <= k < |h| && LiteralAt(h, k);
    var h1 := h + [ch];
    AllSnoc(h[k + 1..], ch, ZoneChar);
    assert h1[..k] == h[..k] && h1[k + 1..] == h[k + 1..] + [ch];
    assert LiteralAt(h1, k);
  }

  lemma PortGrows(at: bool, a: Authority, s: HostState, ch: byte)
    requires HostKnown(at, a, s) && (s == V6End || s == PortStart || s == InPort) && HostChar(s, ch) != HostDead
    ensures Grows(at, a, s, ch)
  {
    hide UserText, HostText, All, LegalLiteral;
    var a1 := Grown(a, s, ch);
    SameFront(a, a1);
    var front := UserText(a) + HostText(a);
    assert [] + [ch] == [ch];
    if s == V6End {
      assert front + [] + [ch] == front + ([COLON] + []);
    } else {
      assert front + ([COLON] + a.port.value) + [ch] == front + ([COLON] + (a.port.value + [ch]));
      assert forall i :: 0 <= i < |a.port.value| ==> IsNum(a.port.value[i]);
    }
  }

  lemma SameFront(a: Authority, a1: Authority)
    requires a1 == a.(port := a1.port)
    ensures UserText(a1) == UserText(a) && HostText(a1) == HostText(a)
  {}

  /** Whatever the second pass takes is the text of such an authority. */
  lemma {:induction false} HostExplained(buf: seq<byte>, at: bool, lo: nat, p: nat) returns (a: Authority)
    requires lo <= p <= |buf| && HostTo(buf, at, lo, p).s != HostDead
    ensures HostKnown(at, a, HostTo(buf, at, lo, p).s) && HostSpelled(a, HostTo(buf, at, lo, p).s) == buf[lo..p]
  {
    hide HostKnown, HostChar, HostSpelled;
    if p == lo {
      a := if at then NO_HOST.(userinfo := Some([])) else NO_HOST;
      HostBeginsKnown(at);
    } else {
      var h, ch := HostTo(buf, at, lo, p - 1), buf[p - 1];
      HostByteState(h, ch, p - 1);
      HostDeadStays(h.s, ch);
      var a0 := HostExplained(buf, at, lo, p - 1);
      a := Grown(a0, h.s, ch);
      HostGrows(at, a0, h.s, ch);
      assert buf[lo..p] == buf[lo..p - 1] + [ch];
    }
  }

  lemma HostBeginsKnown(at: bool)
    ensures var a, s := if at then NO_HOST.(userinfo := Some([])) else NO_HOST, if at then UserinfoStart else HostStart;
      HostKnown(at, a, s) && HostSpelled(a, s) == []
  {}

  lemma HostGrows(at: bool, a: Authority, s: HostState, ch: byte)
    requires HostKnown(at, a, s) && HostChar(s, ch) != HostDead
    ensures Grows(at, a, s, ch)
  {
    hide HostKnown, HostChar, Grows;
    match s {
      case UserinfoStart | InUserinfo => UserGrows(at, a, s, ch);
      case HostStart => NameBegins(at, a, ch);
      case InHost => NameGrows(at, a, ch);
      case V6Start => LiteralBegins(at, a, ch);
      case V6 => LiteralGrows(at, a, ch);
      case V6ZoneStart => ZoneOpens(at, a, ch);
      case V6Zone => ZoneGrows(at, a, ch);
      case V6End | PortStart | InPort => PortGrows(at, a, s, ch);
      case HostDead => DeadForEver(ch);
    }
  }

  lemma DeadForEver(ch: byte)
    ensures HostChar(HostDead, ch) == HostDead
  {}

  /** A complete host is a legal authority. */
  lemma CompleteIsAuthority(at: bool, a: Authority, s: HostState)
    requires HostKnown(at, a, s) && HostComplete(s)
    ensures LegalAuthority(a) && AuthorityText(a) == HostSpelled(a, s) && a.port != Some([]) && a.userinfo.Some? == at
  {
    hide LegalLiteral, All;
    if s == InHost {
      assert UserText(a) + a.host + [] == UserText(a) + a.host;
    }
  }

  // ---- Accepted URLs ---------------------------------------------------------------------------

  function LeadingSigns(t: seq<byte>): (k: nat)
    ensures k <= |t| && t[..k] == Signs(k) && (k < |t| ==> t[k] != 35)
  {
    if t == [] || t[0] != 35 then 0
    else
      var k := 1 + LeadingSigns(t[1..]);
      assert t[..k] == [35] + t[1..][..k - 1] == Signs(k);
      k
  }

  /** The parts of a URL, from what the two passes have told apart. */
  function WholeOf(u: Target, origin: Option<(seq<byte>, Authority)>): Whole {
    var k := if u.fragment.Some? then LeadingSigns(u.fragment.value) else 0;
    Whole(origin, u.path, u.query, k, if u.fragment.Some? then Some(u.fragment.value[k..]) else None)
  }

  lemma FragmentSame(u: Target, origin: Option<(seq<byte>, Authority)>)
    ensures FragmentText(WholeOf(u, origin)) == FragmentPart(u) && QueryText(WholeOf(u, origin)) == QueryPart(u)
  {
    if u.fragment.Some? {
      var v, k := u.fragment.value, LeadingSigns(u.fragment.value);
      assert v == Signs(k) + v[k..];
      assert Signs(k) + [35] == [35] + Signs(k);
      assert Signs(k) + ([35] + v[k..]) == Signs(k) + [35] + v[k..] == [35] + (Signs(k) + v[k..]);
    }
  }

  lemma WholeIsLegal(u: Target, origin: Option<(seq<byte>, Authority)>)
    requires Loose(false, u) && (origin.None? <==> u.schema == [])
    requires origin.Some? ==> origin.value.0 == u.schema && LegalAuthority(origin.value.1) && AuthorityText(origin.value.1) == u.server
    ensures LegalWhole(WholeOf(u, origin)) && Text(WholeOf(u, origin)) == Spelled(u)
  {
    hide LegalAuthority, AuthorityText, InFragment, InQuery, IsUrlChar, IsAlpha, InAuthority, ApartSigns;
    FragmentSame(u, origin);
    assert OriginText(WholeOf(u, origin)) == Front(u) + u.server;
    assert u.fragment.Some? ==> All(u.fragment.value[LeadingSigns(u.fragment.value)..], InFragment);
  }

  /** A URL that is composed of legal parts, with a port that fits if there is one. */
  predicate Composed(u: Whole, buf: seq<byte>) {
    LegalWhole(u) && PortsFit(u) && Text(u) == buf
  }

  /** The authority that stands in an accepted URL. */
  lemma AuthorityOf(buf: seq<byte>, isConnect: bool, u: Target) returns (a: Authority)
    requires Split(buf, isConnect).Some? && ScanTo(buf, isConnect, |buf|).s != Dead
    requires u.server != [] && Noted(ScanTo(buf, isConnect, |buf|), u) && Spelled(u) == buf
    ensures LegalAuthority(a) && AuthorityText(a) == u.server && a.port != Some([])
    ensures a.userinfo.Some? == ScanTo(buf, isConnect, |buf|).foundAt
  {
    hide ScanTo, HostTo, HostKnown, HostSpelled, LegalAuthority, AuthorityText;
    var c := ScanTo(buf, isConnect, |buf|);
    HostBounds(buf, isConnect);
    var lo, hi := |Front(u)|, |Front(u)| + |u.server|;
    ServerStands(u);
    assert SplitHost(buf, c, lo, hi).Some?;
    var h := HostTo(buf, c.foundAt, lo, hi);
    a := HostExplained(buf, c.foundAt, lo, hi);
    CompleteIsAuthority(c.foundAt, a, h.s);
  }

  lemma ServerStands(u: Target)
    ensures var lo, hi := |Front(u)|, |Front(u)| + |u.server|; hi <= |Spelled(u)| && Spelled(u)[lo..hi] == u.server
  {
    hide Front, QueryPart, FragmentPart;
  }

  /** Whatever URL is accepted is composed of legal parts. */
  lemma AcceptedIsComposed(buf: seq<byte>) returns (u: Whole)
    requires Split(buf, false).Some?
    ensures Composed(u, buf)
  {
    hide ScanTo, Loose, Spelled, LegalAuthority, AuthorityText, PortsFit, LegalWhole, WholeOf, Text;
    var c := ScanTo(buf, false, |buf|);
    var v, g := ScanExplained(buf, false, |buf|);
    assert buf[..|buf|] == buf;
    NotThereYet(v, g);
    var origin: Option<(seq<byte>, Authority)> := None;
    if v.server != [] {
      var a := AuthorityOf(buf, false, v);
      OriginThere(v);
      origin := Some((v.schema, a));
    }
    WholeIsLegal(v, origin);
    u := WholeOf(v, origin);
    WellFormedToo(u);
    ComposeThenSplit(u);
  }

  lemma NotThereYet(u: Target, g: Stage)
    ensures g == AtStart ==> Text1(u, g) == []
    ensures Explains(false, u, g) && g != Behind && g != AtStart ==> u.schema != [] && u.server == []
  {}

  lemma OriginThere(u: Target)
    requires Loose(false, u) && u.server != []
    ensures u.schema != []
  {}

  /**
    The language of URLs: a URL is accepted iff it is composed of legal parts, in which a fragment does not
    follow the authority directly, a port has digits and fits, and the host is not empty.
  */
  lemma AcceptedIff(buf: seq<byte>)
    ensures Split(buf, false).Some? <==> exists u :: Composed(u, buf)
  {
    hide Split, LegalWhole, PortsFit, Text;
    if Split(buf, false).Some? {
      var u := AcceptedIsComposed(buf);
    }
    if u :| Composed(u, buf) {
      WellFormedToo(u);
      ComposeThenSplit(u);
    }
  }

  lemma WellFormedToo(u: Whole)
    requires LegalWhole(u)
    ensures WellFormed(u) && !BareFragment(u)
  {
    hide WellFormed;
  }

  // ---- CONNECT ---------------------------------------------------------------------------------

  /** An empty query, with any number of number signs behind it. */
  predicate EmptyTail(t: seq<byte>) {
    t == [] || (t[0] == 63 && SignsOnly(t[1..]))
  }

  /** An authority with a port and without userinfo, and no more than such a tail. */
  predicate Reached(a: Authority, tail: seq<byte>, buf: seq<byte>) {
    LegalAuthority(a) && a.port.Some? && PortFits(a) && Shown(a.userinfo).None? && EmptyTail(tail) && buf == AuthorityText(a) + tail
  }

  /** A tail sets no field. */
  lemma {:induction false} TailRead(buf: seq<byte>, p: nat, i: nat)
    requires p + i <= |buf| && EmptyTail(buf[p..]) && ScanTo(buf, true, p).s == ReqServer
    ensures var c := ScanTo(buf, true, p);
      ScanTo(buf, true, p + i)
        == c.(s := if i == 0 then ReqServer else if i == 1 then ReqQueryStringStart else ReqFragmentStart)
  {
    hide ParseUrlChar, EmptyTail;
    TailBytes();
    if i > 0 {
      TailRead(buf, p, i - 1);
      TailByte(buf, p, i - 1);
    }
  }

  lemma TailByte(buf: seq<byte>, p: nat, i: nat)
    requires p + i < |buf| && EmptyTail(buf[p..])
    ensures buf[p + i] == if i == 0 then 63 else 35
  {
    var t := buf[p..];
    assert buf[p + i] == t[i];
    if i > 0 {
      assert t[1..][i - 1] == t[i];
    }
  }

  lemma TailBytes()
    ensures ParseUrlChar(ReqServer, 63) == ReqQueryStringStart
    ensures ParseUrlChar(ReqQueryStringStart, 35) == ParseUrlChar(ReqFragmentStart, 35) == ReqFragmentStart
  {}

  lemma TargetRead(buf: seq<byte>, a: Authority, tail: seq<byte>)
    requires LegalAuthority(a) && EmptyTail(tail) && buf == AuthorityText(a) + tail
    ensures var c := ScanTo(buf, true, |buf|);
      buf != [] && c.s != Dead && c.foundAt == a.userinfo.Some? && c.fields == map[UfHost := Span(0, |AuthorityText(a)|)]
  {
    hide ScanTo, AuthorityText, LegalAuthority, Runs, Stands, EmptyTail;
    var t := AuthorityText(a);
    AuthorityIsOneField(a);
    ConnectBegins(buf);
    TextStands(t, tail);
    FieldRead(buf, true, 0, t, UfHost);
    assert buf[|t|..] == tail;
    TailRead(buf, |t|, |tail|);
  }

  lemma TextStands(t: seq<byte>, tail: seq<byte>)
    ensures Stands(t + tail, 0, t)
  {}

  lemma ReachedIsAccepted(buf: seq<byte>, a: Authority, tail: seq<byte>)
    requires LegalAuthority(a) && EmptyTail(tail) && buf == AuthorityText(a) + tail
    ensures Split(buf, true).Some? <==> a.port.Some? && PortFits(a) && Shown(a.userinfo).None?
  {
    hide ScanTo, AuthorityText, LegalAuthority, PortFits, SplitHost, Stands, AuthorityFields, EmptyTail;
    TargetRead(buf, a, tail);
    AuthorityPort(a);
    TextStands(AuthorityText(a), tail);
    var c := ScanTo(buf, true, |buf|);
    AuthoritySplit(buf, c, 0, a);
    ConnectFields(c.fields, a, 0);
  }

  /** In what is accepted for CONNECT nothing but a host is set by the first pass. */
  lemma OnlyHost(buf: seq<byte>, f: UrlField)
    requires Split(buf, true).Some? && f in ScanTo(buf, true, |buf|).fields
    ensures f == UfHost || f == UfPort
  {
    hide ScanTo, SplitHost;
    SplitKeeps(buf);
    assert f in Split(buf, true).value.fields.Keys;
  }

  lemma SplitKeeps(buf: seq<byte>)
    requires Split(buf, true).Some?
    ensures var c := ScanTo(buf, true, |buf|);
      c.s != Dead && UfHost in c.fields && c.fields.Keys <= Split(buf, true).value.fields.Keys == {UfHost, UfPort}
  {
    hide ScanTo, HostTo;
  }

  /** Whatever target of CONNECT is accepted is such an authority with such a tail. */
  lemma AcceptedIsReached(buf: seq<byte>) returns (a: Authority, tail: seq<byte>)
    requires Split(buf, true).Some?
    ensures Reached(a, tail, buf)
  {
    hide ScanTo, Split, LegalAuthority, AuthorityText, PortFits, StateBehind;
    SplitKeeps(buf);
    var c := ScanTo(buf, true, |buf|);
    var u, g := ScanExplained(buf, true, |buf|);
    assert buf[..|buf|] == buf;
    a := AuthorityOf(buf, true, u);
    forall f | f in c.fields
      ensures f == UfHost || f == UfPort
    {
      OnlyHost(buf, f);
    }
    tail := QueryPart(u) + FragmentPart(u);
    TailIsEmpty(u);
    ReachedIsAccepted(buf, a, tail);
  }

  lemma TailIsEmpty(u: Target)
    requires Loose(true, u) && u.path == [] && (u.query.Some? ==> u.query.value == [])
    requires u.fragment.Some? ==> SignsOnly(u.fragment.value)
    ensures var tail := QueryPart(u) + FragmentPart(u); EmptyTail(tail) && Spelled(u) == u.server + tail
  {
    hide InAuthority, ApartSigns;
    assert Front(u) == [];
    if u.query.Some? {
      assert (QueryPart(u) + FragmentPart(u))[1..] == FragmentPart(u);
    }
  }

  /**
    The targets of CONNECT that are accepted: a legal authority with a port that fits and without userinfo,
    and behind it at most an empty query and number signs.
  */
  lemma ConnectIff(buf: seq<byte>)
    ensures Split(buf, true).Some? <==> exists a, tail :: Reached(a, tail, buf)
  {
    hide Split, LegalAuthority, AuthorityText, PortFits, EmptyTail;
    if Split(buf, true).Some? {
      var a, tail := AcceptedIsReached(buf);
    }
    if a, tail :| Reached(a, tail, buf) {
      ReachedIsAccepted(buf, a, tail);
    }
  }
}
