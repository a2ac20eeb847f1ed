/** Composing a URL from parts and splitting it gives the parts back. */
module UrlCompose {
  import opened Bytes
  import opened HttpTypes
  import opened HttpStep
  import opened HttpRun
  import opened HttpLengths
  import opened HttpRequest
  import opened Url

  /** `literal` says that the host is an IPv6 address in brackets, perhaps with a zone identifier. */
  datatype Authority = Authority(userinfo: Option<seq<byte>>, host: seq<byte>, literal: bool, port: Option<seq<byte>>)

  /**
    An absolute URL, or with `origin == None` a path with a query and a fragment; `signs` is the number of
    further number signs behind the one that begins the fragment.
  */
  datatype Whole = Whole(
    origin: Option<(seq<byte>, Authority)>, path: seq<byte>, query: Option<seq<byte>>, signs: nat, fragment: Option<seq<byte>>)

  function UserText(a: Authority): seq<byte> {
    if a.userinfo.Some? then a.userinfo.value + [64] else []
  }

  function HostText(a: Authority): seq<byte> {
    if a.literal then [91] + a.host + [93] else a.host
  }

  function PortOf(a: Authority): seq<byte> {
    if a.port.Some? then [COLON] + a.port.value else []
  }

  function AuthorityText(a: Authority): seq<byte> {
    UserText(a) + HostText(a) + PortOf(a)
  }

  function OriginText(u: Whole): seq<byte> {
    if u.origin.Some? then u.origin.value.0 + [COLON, 47, 47] + AuthorityText(u.origin.value.1) else []
  }

  function QueryText(u: Whole): seq<byte> {
    if u.query.Some? then [63] + u.query.value else []
  }

  function Signs(k: nat): (t: seq<byte>)
    ensures |t| == k
  {
    seq(k, _ => 35)
  }

  function FragmentText(u: Whole): seq<byte> {
    if u.fragment.Some? then Signs(u.signs) + ([35] + u.fragment.value) else []
  }

  function Text(u: Whole): seq<byte> {
    OriginText(u) + u.path + QueryText(u) + FragmentText(u)
  }

  predicate All(t: seq<byte>, p: byte -> bool) {
    forall i :: 0 <= i < |t| ==> p(t[i])
  }

  /** An IPv6 address of `k` bytes, with a zone identifier behind a percent sign unless it ends there. */
  predicate LiteralAt(h: seq<byte>, k: nat) {
    0 < k <= |h| && All(h[..k], V6Char) && (k < |h| ==> h[k] == 37 && k + 1 < |h| && All(h[k + 1..], ZoneChar))
  }

  predicate LegalLiteral(h: seq<byte>) {
    exists k :: 0 <= k <= |h| && LiteralAt(h, k)
  }

  predicate LegalAuthority(a: Authority) {
    && (a.userinfo.Some? ==> All(a.userinfo.value, IsUserinfoChar))
    && a.host != [] && (if a.literal then LegalLiteral(a.host) else All(a.host, IsHostChar))
    && (a.port.Some? ==> Digits(a.port.value))
  }

  /** The port, if there is one, has digits and fits 16 bits. */
  predicate PortFits(a: Authority)
    requires LegalAuthority(a)
  {
    a.port.Some? ==> a.port.value != [] && Decimal(a.port.value) <= 0xffff
  }

  predicate InQuery(b: byte) {
    IsUrlChar(b) || b == 63
  }

  predicate InFragment(b: byte) {
    IsUrlChar(b) || b == 63 || b == 35
  }

  predicate WellFormed(u: Whole) {
    && (u.origin.Some? ==> u.origin.value.0 != [] && All(u.origin.value.0, IsAlpha) && LegalAuthority(u.origin.value.1))
    && (u.origin.None? ==> u.path != [])
    && (u.path != [] ==> (u.path[0] == 47 || (u.path[0] == 42 && u.origin.None?)) && All(u.path, IsUrlChar))
    && (u.query.Some? ==> All(u.query.value, InQuery))
    && (u.fragment.Some? ==> (u.fragment.value != [] ==> u.fragment.value[0] != 35) && All(u.fragment.value, InFragment))
  }

  /** The fragment follows the authority directly. */
  predicate BareFragment(u: Whole) {
    u.fragment.Some? && u.path == [] && u.query.None?
  }

  predicate LegalWhole(u: Whole) {
    WellFormed(u) && !BareFragment(u)
  }

  /** An empty part does not set its field. */
  function Shown(t: Option<seq<byte>>): Option<seq<byte>> {
    if t == Some([]) then None else t
  }

  // ---- Runs of the first pass ------------------------------------------------------------------

  /** Every byte of `t`, read from state `s`, belongs to field `f`. */
  predicate Runs(s: State, t: seq<byte>, f: UrlField) {
    forall i :: 0 < i <= |t| ==> FieldOf(UrlAfter(s, t[..i])) == Some(f)
  }

  /** `t` stands at `p`. */
  predicate Stands(buf: seq<byte>, p: nat, t: seq<byte>) {
    p + |t| <= |buf| && forall i :: 0 <= i < |t| ==> buf[p + i] == t[i]
  }

  lemma AtState(s: State, ch: byte)
    ensures FieldOf(ParseUrlChar(s, ch)).Some? ==>
      (ParseUrlChar(s, ch) == ReqServerWithAt <==> FieldOf(ParseUrlChar(s, ch)) == Some(UfHost) && ch == 64)
  {}

  lemma OneMore(t: seq<byte>, k: nat, b: byte)
    requires 1 <= k <= |t|
    ensures b in t[..k] <==> b in t[..k - 1] || t[k - 1] == b
    ensures t[..k][..k - 1] == t[..k - 1] && t[..k][k - 1] == t[k - 1]
  {
    assert t[..k] == t[..k - 1] + [t[k - 1]];
  }

  lemma UrlSnoc(s: State, t: seq<byte>, k: nat)
    requires 1 <= k <= |t|
    ensures UrlAfter(s, t[..k]) == ParseUrlChar(UrlAfter(s, t[..k - 1]), t[k - 1])
  {
    hide ParseUrlChar;
    assert t[..k][..k - 1] == t[..k - 1] && t[..k][k - 1] == t[k - 1];
  }

  /** What one byte of a field does. */
  lemma FieldByte(c: Scan, ch: byte, i: nat, f: UrlField)
    requires FieldOf(ParseUrlChar(c.s, ch)) == Some(f) && (c.last == Some(f) ==> f in c.fields)
    ensures var old1 := if c.last == Some(f) then c.fields[f] else Span(i, 0);
      ScanByte(c, ch, i) == Scan(ParseUrlChar(c.s, ch), Some(f), c.foundAt || (f == UfHost && ch == 64),
                                 c.fields[f := Span(old1.off, old1.len + 1)])
  {
    AtState(c.s, ch);
    hide ParseUrlChar;
  }

  lemma {:induction false} FieldRun(buf: seq<byte>, isConnect: bool, p: nat, t: seq<byte>, f: UrlField, k: nat)
    requires Stands(buf, p, t) && 1 <= k <= |t|
    requires ScanTo(buf, isConnect, p).last != Some(f) && Runs(ScanTo(buf, isConnect, p).s, t, f)
    ensures var c := ScanTo(buf, isConnect, p);
      ScanTo(buf, isConnect, p + k)
        == Scan(UrlAfter(c.s, t[..k]), Some(f), c.foundAt || (f == UfHost && 64 in t[..k]), c.fields[f := Span(p, k)])
  {
    hide ParseUrlChar, ScanByte, UrlAfter;
    var c := ScanTo(buf, isConnect, p);
    assert buf[p + (k - 1)] == t[k - 1];
    OneMore(t, k, 64);
    UrlSnoc(c.s, t, k);
    assert FieldOf(UrlAfter(c.s, t[..k])) == Some(f);
    if k == 1 {
      NothingRead(c.s, t);
      FieldByte(c, t[0], p, f);
    } else {
      FieldRun(buf, isConnect, p, t, f, k - 1);
      FieldByte(ScanTo(buf, isConnect, p + k - 1), t[k - 1], p + k - 1, f);
    }
  }

  /** A whole field. */
  lemma FieldRead(buf: seq<byte>, isConnect: bool, p: nat, t: seq<byte>, f: UrlField)
    requires Stands(buf, p, t) && t != []
    requires ScanTo(buf, isConnect, p).last != Some(f) && Runs(ScanTo(buf, isConnect, p).s, t, f)
    ensures var c := ScanTo(buf, isConnect, p);
      ScanTo(buf, isConnect, p + |t|)
        == Scan(UrlAfter(c.s, t), Some(f), c.foundAt || (f == UfHost && 64 in t), c.fields[f := Span(p, |t|)])
  {
    hide ParseUrlChar, ScanByte, ScanTo, UrlAfter, Runs;
    FieldRun(buf, isConnect, p, t, f, |t|);
    assert t[..|t|] == t;
  }

  /** A delimiter. */
  lemma DelimiterRead(buf: seq<byte>, p: nat, s: State)
    requires p < |buf| && ParseUrlChar(ScanTo(buf, false, p).s, buf[p]) == s && FieldOf(s) == None
    ensures ScanTo(buf, false, p + 1) == ScanTo(buf, false, p).(s := s)
  {
    hide ParseUrlChar;
  }

  /** A run that stays in the state its first byte leads to. */
  lemma {:induction false} StayRuns(s: State, s1: State, t: seq<byte>, k: nat)
    requires 1 <= k <= |t|
    requires ParseUrlChar(s, t[0]) == s1 && forall i :: 1 <= i < |t| ==> ParseUrlChar(s1, t[i]) == s1
    ensures UrlAfter(s, t[..k]) == s1
  {
    hide ParseUrlChar, UrlAfter;
    UrlSnoc(s, t, k);
    if k == 1 {
      NothingRead(s, t);
    } else {
      StayRuns(s, s1, t, k - 1);
    }
  }

  lemma Stayed(s: State, s1: State, t: seq<byte>, f: UrlField)
    requires t != [] && FieldOf(s1) == Some(f)
    requires ParseUrlChar(s, t[0]) == s1 && forall i :: 1 <= i < |t| ==> ParseUrlChar(s1, t[i]) == s1
    ensures Runs(s, t, f) && UrlAfter(s, t) == s1
  {
    hide ParseUrlChar, UrlAfter;
    forall i | 0 < i <= |t|
      ensures UrlAfter(s, t[..i]) == s1
    {
      StayRuns(s, s1, t, i);
    }
    assert t[..|t|] == t;
  }

  /** The bytes that may stand in an authority. */
  predicate InAuthority(b: byte) {
    IsUserinfoChar(b) || b == 91 || b == 93 || b == 64
  }

  lemma {:induction false} AuthorityRuns(t: seq<byte>, k: nat)
    requires k <= |t| && All(t, InAuthority) && forall i :: 0 < i < |t| && t[i - 1] == 64 ==> t[i] != 64
    ensures forall i :: 0 < i <= k ==> UrlAfter(ReqServerStart, t[..i]) == if t[i - 1] == 64 then ReqServerWithAt else ReqServer
  {
    if k > 0 {
      AuthorityRuns(t, k - 1);
      assert t[..k][..k - 1] == t[..k - 1] && t[..k][k - 1] == t[k - 1];
      AuthorityByte(if k == 1 then ReqServerStart else if t[k - 2] == 64 then ReqServerWithAt else ReqServer, t[k - 1]);
      if k == 1 {
        assert t[..0] == [];
      }
    }
  }

  lemma AuthorityByte(s: State, ch: byte)
    requires s == ReqServerStart || s == ReqServer || (s == ReqServerWithAt && ch != 64)
    requires InAuthority(ch)
    ensures ParseUrlChar(s, ch) == if ch == 64 then ReqServerWithAt else ReqServer
  {}

  // ---- Runs of the host pass -------------------------------------------------------------------

  /** Bytes read in one state of the host, from the byte at `p` on. */
  lemma {:induction false} HostRun(
      buf: seq<byte>, foundAt: bool, lo: nat, p: nat, t: seq<byte>, f: UrlField, s1: HostState, k: nat)
    requires lo <= p && Stands(buf, p, t) && 1 <= k <= |t|
    requires var h := HostTo(buf, foundAt, lo, p);
      h.s != HostDead && HostFieldOf(h.s) != Some(f) && HostFieldOf(s1) == Some(f) && HostChar(h.s, t[0]) == s1
    requires forall i :: 1 <= i < |t| ==> HostChar(s1, t[i]) == s1
    ensures var h := HostTo(buf, foundAt, lo, p); HostTo(buf, foundAt, lo, p + k) == HostScan(s1, h.fields[f := Span(p, k)])
  {
    hide HostChar, HostByte, HostOk;
    var h0 := HostTo(buf, foundAt, lo, p);
    var h := HostTo(buf, foundAt, lo, p + k - 1);
    assert buf[p + k - 1] == t[k - 1];
    if k > 1 {
      HostRun(buf, foundAt, lo, p, t, f, s1, k - 1);
      NotDead(s1, f);
    }
    HostByteState(h, t[k - 1], p + k - 1);
    NotDead(s1, f);
    HostTiles(buf, foundAt, lo, p + k - 1);
    HostReady(buf, lo, h, p + k - 1);
    HostByteShape(h, t[k - 1], p + k - 1);
  }

  /** More bytes of a field of the host, in another state of it. */
  lemma {:induction false} HostMore(
      buf: seq<byte>, foundAt: bool, lo: nat, p: nat, t: seq<byte>, f: UrlField, s1: HostState, k: nat)
    requires lo <= p && Stands(buf, p, t) && 1 <= k <= |t|
    requires var h := HostTo(buf, foundAt, lo, p);
      HostFieldOf(h.s) == Some(f) && HostFieldOf(s1) == Some(f) && HostChar(h.s, t[0]) == s1 && f in h.fields
    requires forall i :: 1 <= i < |t| ==> HostChar(s1, t[i]) == s1
    ensures var h := HostTo(buf, foundAt, lo, p);
      HostTo(buf, foundAt, lo, p + k) == HostScan(s1, h.fields[f := Span(h.fields[f].off, h.fields[f].len + k)])
  {
    hide HostChar, HostByte, HostOk;
    var h0 := HostTo(buf, foundAt, lo, p);
    var h := HostTo(buf, foundAt, lo, p + k - 1);
    assert buf[p + k - 1] == t[k - 1];
    if k > 1 {
      HostMore(buf, foundAt, lo, p, t, f, s1, k - 1);
    }
    NotDead(h0.s, f);
    NotDead(s1, f);
    HostByteState(h, t[k - 1], p + k - 1);
    HostTiles(buf, foundAt, lo, p + k - 1);
    HostReady(buf, lo, h, p + k - 1);
    HostByteShape(h, t[k - 1], p + k - 1);
  }

  lemma NotDead(s: HostState, f: UrlField)
    requires HostFieldOf(s) == Some(f)
    ensures s != HostDead
  {}

  lemma HostReady(buf: seq<byte>, lo: nat, h: HostScan, p: nat)
    requires p <= |buf| && HostOk(buf, lo, h, p)
    ensures UfHost in h.fields && (HostLevel(h.s) < 2 ==> h.fields[UfHost].len == 0)
    ensures (HostLevel(h.s) < 1 ==> UfUserinfo !in h.fields) && (HostLevel(h.s) < 3 ==> UfPort !in h.fields)
    ensures HostFieldOf(h.s).Some? ==> HostFieldOf(h.s).value in h.fields
  {
    hide Tiled, PortDigits;
    HostUpTo(h.fields, HostLevel(h.s));
  }

  lemma HostDelimiterRead(buf: seq<byte>, foundAt: bool, lo: nat, p: nat, s: HostState)
    requires lo <= p < |buf| && HostChar(HostTo(buf, foundAt, lo, p).s, buf[p]) == s && HostFieldOf(s) == None
    ensures HostTo(buf, foundAt, lo, p + 1) == HostScan(s, HostTo(buf, foundAt, lo, p).fields)
  {
    hide HostChar;
  }

  lemma StandsWithin(buf: seq<byte>, p: nat, t: seq<byte>, q: nat, u: seq<byte>)
    requires Stands(buf, p, t) && Stands(t, q, u)
    ensures Stands(buf, p + q, u)
  {
    forall i | 0 <= i < |u|
      ensures buf[p + q + i] == u[i]
    {
      assert u[i] == t[q + i] && t[q + i] == buf[p + (q + i)];
    }
  }

  lemma StandsAt(buf: seq<byte>, p: nat, t: seq<byte>, i: nat)
    requires Stands(buf, p, t) && i < |t|
    ensures buf[p + i] == t[i]
  {}

  /** Three texts behind one another stand where the one before ends. */
  lemma StandsParts(buf: seq<byte>, p: nat, a: seq<byte>, b: seq<byte>, c: seq<byte>)
    requires Stands(buf, p, a + b + c)
    ensures Stands(buf, p, a) && Stands(buf, p + |a|, b) && Stands(buf, p + |a| + |b|, c)
  {
    var t := a + b + c;
    assert forall i :: 0 <= i < |a| ==> t[i] == a[i];
    assert forall i :: 0 <= i < |b| ==> t[|a| + i] == b[i];
    assert forall i :: 0 <= i < |c| ==> t[|a| + |b| + i] == c[i];
    StandsWithin(buf, p, t, 0, a);
    StandsWithin(buf, p, t, |a|, b);
    StandsWithin(buf, p, t, |a| + |b|, c);
  }

  // ---- An authority ----------------------------------------------------------------------------

  /** Where the host begins in the text of an authority. */
  function HostOffset(a: Authority): nat {
    |UserText(a)| + if a.literal then 1 else 0
  }

  function PortOffset(a: Authority): nat {
    |UserText(a)| + |HostText(a)| + 1
  }

  function AuthorityFields(a: Authority, lo: nat): Fields {
    var m: Fields := map[UfHost := Span(lo + HostOffset(a), |a.host|)];
    var m1 := if Shown(a.userinfo).Some? then m[UfUserinfo := Span(lo, |a.userinfo.value|)] else m;
    if Shown(a.port).Some? then m1[UfPort := Span(lo + PortOffset(a), |a.port.value|)] else m1
  }

  /** The three parts of an authority stand one behind the other. */
  lemma PartsStand(buf: seq<byte>, lo: nat, a: Authority)
    requires Stands(buf, lo, AuthorityText(a))
    ensures Stands(buf, lo, UserText(a)) && Stands(buf, lo + |UserText(a)|, HostText(a))
    ensures Stands(buf, lo + |UserText(a)| + |HostText(a)|, PortOf(a))
  {
    hide UserText, HostText, PortOf, Stands;
    StandsParts(buf, lo, UserText(a), HostText(a), PortOf(a));
  }

  lemma UserStands(buf: seq<byte>, lo: nat, a: Authority)
    requires Stands(buf, lo, UserText(a)) && a.userinfo.Some?
    ensures Stands(buf, lo, a.userinfo.value) && lo + |a.userinfo.value| < |buf| && buf[lo + |a.userinfo.value|] == 64
  {
    assert a.userinfo.value + [64] + [] == UserText(a);
    StandsParts(buf, lo, a.userinfo.value, [64], []);
    StandsAt(buf, lo + |a.userinfo.value|, [64], 0);
  }

  lemma LiteralStands(buf: seq<byte>, p: nat, a: Authority)
    requires Stands(buf, p, HostText(a)) && a.literal
    ensures Stands(buf, p + 1, a.host) && p + 1 + |a.host| < |buf| && buf[p] == 91 && buf[p + 1 + |a.host|] == 93
  {
    StandsParts(buf, p, [91], a.host, [93]);
    StandsAt(buf, p, [91], 0);
    StandsAt(buf, p + 1 + |a.host|, [93], 0);
  }

  lemma PortStands(buf: seq<byte>, p: nat, a: Authority)
    requires Stands(buf, p, PortOf(a)) && a.port.Some?
    ensures Stands(buf, p + 1, a.port.value) && buf[p] == COLON
  {
    StandsBehind(buf, p, COLON, a.port.value);
    StandsAt(buf, p, PortOf(a), 0);
  }

  lemma UserChars(t: seq<byte>)
    requires All(t, IsUserinfoChar)
    ensures forall i :: 0 <= i < |t| ==> HostChar(UserinfoStart, t[i]) == InUserinfo && HostChar(InUserinfo, t[i]) == InUserinfo
  {
    forall i | 0 <= i < |t|
      ensures HostChar(UserinfoStart, t[i]) == InUserinfo && HostChar(InUserinfo, t[i]) == InUserinfo
    {
      assert IsUserinfoChar(t[i]) && t[i] != 64;
    }
  }

  lemma V6Chars(t: seq<byte>)
    requires All(t, V6Char)
    ensures forall i :: 0 <= i < |t| ==> HostChar(V6Start, t[i]) == V6 && HostChar(V6, t[i]) == V6
  {
    forall i | 0 <= i < |t|
      ensures HostChar(V6Start, t[i]) == V6 && HostChar(V6, t[i]) == V6
    {
      assert V6Char(t[i]) && t[i] != 93;
    }
  }

  lemma HostChars(t: seq<byte>)
    requires All(t, IsHostChar)
    ensures forall i :: 0 <= i < |t| ==> HostChar(HostStart, t[i]) == InHost && HostChar(InHost, t[i]) == InHost
  {
    forall i | 0 <= i < |t|
      ensures HostChar(HostStart, t[i]) == InHost && HostChar(InHost, t[i]) == InHost
    {
      assert IsHostChar(t[i]) && t[i] != 91;
    }
  }

  lemma PortChars(t: seq<byte>)
    requires Digits(t)
    ensures forall i :: 0 <= i < |t| ==> HostChar(PortStart, t[i]) == InPort && HostChar(InPort, t[i]) == InPort
  {}

  lemma HostMarks()
    ensures HostChar(UserinfoStart, 64) == HostStart && HostChar(InUserinfo, 64) == HostStart
    ensures HostChar(HostStart, 91) == V6Start && HostChar(V6, 93) == V6End && HostChar(V6Zone, 93) == V6End
    ensures HostChar(V6, 37) == V6ZoneStart
    ensures HostChar(InHost, COLON) == PortStart && HostChar(V6End, COLON) == PortStart
  {}

  /** The userinfo, if any, up to where the host starts. */
  lemma UserRead(buf: seq<byte>, lo: nat, a: Authority)
    requires Stands(buf, lo, UserText(a)) && LegalAuthority(a)
    ensures var m: Fields := map[UfHost := Span(lo, 0)];
      HostTo(buf, a.userinfo.Some?, lo, lo + |UserText(a)|)
        == HostScan(HostStart, if Shown(a.userinfo).Some? then m[UfUserinfo := Span(lo, |a.userinfo.value|)] else m)
  {
    hide HostByte, HostChar, All;
    HostMarks();
    assert HostTo(buf, a.userinfo.Some?, lo, lo).fields == map[UfHost := Span(lo, 0)];
    hide HostTo;
    if a.userinfo.Some? {
      UserStands(buf, lo, a);
      var t := a.userinfo.value;
      UserChars(t);
      HostStartState(buf, lo);
      if t != [] {
        HostRun(buf, true, lo, lo, t, UfUserinfo, InUserinfo, |t|);
      }
      HostDelimiterRead(buf, true, lo, lo + |t|, HostStart);
    } else {
      HostStartState(buf, lo);
    }
  }

  lemma HostStartState(buf: seq<byte>, lo: nat)
    requires lo <= |buf|
    ensures HostTo(buf, true, lo, lo) == HostScan(UserinfoStart, map[UfHost := Span(lo, 0)])
    ensures HostTo(buf, false, lo, lo) == HostScan(HostStart, map[UfHost := Span(lo, 0)])
  {}

  lemma ZoneChars(t: seq<byte>)
    requires All(t, ZoneChar)
    ensures forall i :: 0 <= i < |t| ==> HostChar(V6ZoneStart, t[i]) == V6Zone && HostChar(V6Zone, t[i]) == V6Zone
  {
    forall i | 0 <= i < |t|
      ensures HostChar(V6ZoneStart, t[i]) == V6Zone && HostChar(V6Zone, t[i]) == V6Zone
    {
      assert ZoneChar(t[i]) && t[i] != 93;
    }
  }

  lemma SplitStands(buf: seq<byte>, p: nat, t: seq<byte>, k: nat)
    requires Stands(buf, p, t) && k <= |t|
    ensures Stands(buf, p, t[..k]) && Stands(buf, p + k, t[k..]) && (k < |t| ==> buf[p + k] == t[k])
  {}

  /** What stands between the brackets. */
  lemma LiteralRead(buf: seq<byte>, at: bool, lo: nat, p: nat, t: seq<byte>)
    requires lo <= p && Stands(buf, p, t) && LegalLiteral(t) && HostTo(buf, at, lo, p).s == V6Start
    ensures var h, h1 := HostTo(buf, at, lo, p), HostTo(buf, at, lo, p + |t|);
      (h1.s == V6 || h1.s == V6Zone) && h1.fields == h.fields[UfHost := Span(p, |t|)]
  {
    hide HostByte, HostTo, HostChar, All, Stands;
    var k :| 0 <= k <= |t| && LiteralAt(t, k);
    HostMarks();
    SplitStands(buf, p, t, k);
    V6Chars(t[..k]);
    HostRun(buf, at, lo, p, t[..k], UfHost, V6, k);
    if k < |t| {
      ZoneRead(buf, at, lo, p, t, k);
    }
  }

  /** The zone identifier behind the address. */
  lemma ZoneRead(buf: seq<byte>, at: bool, lo: nat, p: nat, t: seq<byte>, k: nat)
    requires lo <= p && Stands(buf, p, t) && k < |t| && LiteralAt(t, k)
    requires HostTo(buf, at, lo, p + k).s == V6
    requires UfHost in HostTo(buf, at, lo, p + k).fields && HostTo(buf, at, lo, p + k).fields[UfHost] == Span(p, k)
    ensures var h, h1 := HostTo(buf, at, lo, p + k), HostTo(buf, at, lo, p + |t|);
      h1.s == V6Zone && h1.fields == h.fields[UfHost := Span(p, |t|)]
  {
    hide HostByte, HostTo, HostChar, All, Stands;
    HostMarks();
    var mark, zone := [t[k]], t[k + 1..];
    assert t[k..] == mark + zone && t[k..][..1] == mark;
    SplitStands(buf, p, t, k);
    StandsBehind(buf, p + k, t[k], zone);
    SplitStands(buf, p + k, t[k..], 1);
    HostMore(buf, at, lo, p + k, mark, UfHost, V6ZoneStart, 1);
    ZoneChars(zone);
    HostMore(buf, at, lo, p + k + 1, zone, UfHost, V6Zone, |zone|);
  }

  /** The host proper, from `p` on. */
  lemma NameRead(buf: seq<byte>, lo: nat, p: nat, a: Authority)
    requires lo <= p && Stands(buf, p, HostText(a)) && LegalAuthority(a)
    requires HostTo(buf, a.userinfo.Some?, lo, p).s == HostStart
    ensures HostTo(buf, a.userinfo.Some?, lo, p + |HostText(a)|)
      == HostScan(if a.literal then V6End else InHost,
                  HostTo(buf, a.userinfo.Some?, lo, p).fields[UfHost := Span(if a.literal then p + 1 else p, |a.host|)])
  {
    hide HostByte, HostTo, HostChar, All;
    var at := a.userinfo.Some?;
    HostMarks();
    if a.literal {
      LiteralStands(buf, p, a);
      HostDelimiterRead(buf, at, lo, p, V6Start);
      LiteralRead(buf, at, lo, p + 1, a.host);
      HostDelimiterRead(buf, at, lo, p + 1 + |a.host|, V6End);
    } else {
      HostChars(a.host);
      HostRun(buf, at, lo, p, a.host, UfHost, InHost, |a.host|);
    }
  }

  /** The port, if any, from `p` on. */
  lemma PortRead(buf: seq<byte>, lo: nat, p: nat, a: Authority)
    requires lo <= p && Stands(buf, p, PortOf(a)) && LegalAuthority(a)
    requires var s := HostTo(buf, a.userinfo.Some?, lo, p).s; s == InHost || s == V6End
    ensures var h, h1 := HostTo(buf, a.userinfo.Some?, lo, p), HostTo(buf, a.userinfo.Some?, lo, p + |PortOf(a)|);
      && (HostComplete(h1.s) <==> a.port != Some([]))
      && h1.fields == if Shown(a.port).Some? then h.fields[UfPort := Span(p + 1, |a.port.value|)] else h.fields
  {
    hide HostByte, HostTo, HostChar, All;
    HostMarks();
    if a.port.Some? {
      PortStands(buf, p, a);
      var at, t := a.userinfo.Some?, a.port.value;
      HostDelimiterRead(buf, at, lo, p, PortStart);
      if t != [] {
        PortChars(t);
        HostRun(buf, at, lo, p + 1, t, UfPort, InPort, |t|);
      }
    }
  }

  /** The second pass finds userinfo, host and port where they were put. */
  lemma AuthorityRead(buf: seq<byte>, lo: nat, a: Authority)
    requires Stands(buf, lo, AuthorityText(a)) && LegalAuthority(a)
    ensures var h := HostTo(buf, a.userinfo.Some?, lo, lo + |AuthorityText(a)|);
      (HostComplete(h.s) <==> a.port != Some([])) && h.fields == AuthorityFields(a, lo)
  {
    hide HostByte, HostTo, LegalAuthority, UserText, HostText, PortOf, Stands;
    PartsStand(buf, lo, a);
    UserRead(buf, lo, a);
    var p := lo + |UserText(a)|;
    NameRead(buf, lo, p, a);
    PortRead(buf, lo, p + |HostText(a)|, a);
    var host := Span(lo + HostOffset(a), |a.host|);
    var m: Fields := map[UfHost := Span(lo, 0)];
    assert m[UfHost := host] == map[UfHost := host];
    if Shown(a.userinfo).Some? {
      var user := Span(lo, |a.userinfo.value|);
      assert m[UfUserinfo := user][UfHost := host] == map[UfHost := host][UfUserinfo := user];
    }
  }

  lemma LiteralBytes(t: seq<byte>)
    requires LegalLiteral(t)
    ensures forall i :: 0 <= i < |t| ==> InAuthority(t[i]) && t[i] != 64
  {
    var k :| 0 <= k <= |t| && LiteralAt(t, k);
    forall i | 0 <= i < |t|
      ensures InAuthority(t[i]) && t[i] != 64
    {
      if i < k {
        assert V6Char(t[..k][i]);
      } else if i > k {
        assert ZoneChar(t[k + 1..][i - k - 1]);
      }
    }
  }

  lemma PartBytes(a: Authority)
    requires LegalAuthority(a)
    ensures forall i :: 0 <= i < |UserText(a)| ==>
      InAuthority(UserText(a)[i]) && (UserText(a)[i] == 64 <==> i == |UserText(a)| - 1)
    ensures forall i :: 0 <= i < |HostText(a)| ==> InAuthority(HostText(a)[i]) && HostText(a)[i] != 64
    ensures forall i :: 0 <= i < |PortOf(a)| ==> InAuthority(PortOf(a)[i]) && PortOf(a)[i] != 64
  {
    assert a.userinfo.Some? ==> forall i :: 0 <= i < |a.userinfo.value| ==> IsUserinfoChar(a.userinfo.value[i]);
    assert a.port.Some? ==> forall i :: 0 <= i < |a.port.value| ==> IsNum(a.port.value[i]);
    if a.literal {
      LiteralBytes(a.host);
    } else {
      assert forall i :: 0 <= i < |a.host| ==> IsHostChar(a.host[i]);
    }
  }

  lemma AuthorityBytes(a: Authority, i: nat)
    requires LegalAuthority(a) && i < |AuthorityText(a)|
    ensures InAuthority(AuthorityText(a)[i])
    ensures AuthorityText(a)[i] == 64 <==> a.userinfo.Some? && i == |UserText(a)| - 1
  {
    PartBytes(a);
    UserLength(a);
    hide UserText, HostText, PortOf, InAuthority, LegalAuthority;
    var t, n, m := AuthorityText(a), |UserText(a)|, |UserText(a)| + |HostText(a)|;
    if i < n {
      assert t[i] == UserText(a)[i];
    } else if i < m {
      assert t[i] == HostText(a)[i - n];
    } else {
      assert t[i] == PortOf(a)[i - m];
    }
  }

  lemma UserLength(a: Authority)
    ensures UserText(a) != [] <==> a.userinfo.Some?
    ensures a.host != [] ==> HostText(a) != []
  {}

  lemma AuthorityAt(a: Authority)
    requires LegalAuthority(a)
    ensures var t := AuthorityText(a);
      && t != [] && t[|t| - 1] != 64 && All(t, InAuthority)
      && (forall i :: 0 < i < |t| && t[i - 1] == 64 ==> t[i] != 64)
      && (64 in t <==> a.userinfo.Some?)
  {
    UserLength(a);
    assert HostText(a) != [];
    hide UserText, HostText, PortOf, InAuthority, LegalAuthority;
    var t, n := AuthorityText(a), |UserText(a)|;
    forall i | 0 <= i < |t|
      ensures InAuthority(t[i]) && (t[i] == 64 <==> a.userinfo.Some? && i == n - 1)
    {
      AuthorityBytes(a, i);
    }
    if a.userinfo.Some? {
      assert t[n - 1] == 64;
    }
  }

  lemma AuthorityStays(t: seq<byte>)
    requires t != [] && t[|t| - 1] != 64 && All(t, InAuthority)
    requires forall i :: 0 < i < |t| && t[i - 1] == 64 ==> t[i] != 64
    ensures Runs(ReqServerStart, t, UfHost) && UrlAfter(ReqServerStart, t) == ReqServer
  {
    hide UrlAfter, InAuthority, All;
    AuthorityRuns(t, |t|);
    assert t[..|t|] == t;
    assert UrlAfter(ReqServerStart, t[..|t|]) == ReqServer;
  }

  /** An authority is a single field to the first pass, and `@` in it means userinfo. */
  lemma AuthorityIsOneField(a: Authority)
    requires LegalAuthority(a)
    ensures var t := AuthorityText(a);
      t != [] && Runs(ReqServerStart, t, UfHost) && UrlAfter(ReqServerStart, t) == ReqServer && (64 in t <==> a.userinfo.Some?)
  {
    hide UrlAfter, AuthorityText, All, LegalAuthority, Runs;
    AuthorityAt(a);
    AuthorityStays(AuthorityText(a));
  }

  // ---- A whole URL -----------------------------------------------------------------------------

  /** The parts of a URL stand one behind the other. */
  lemma WholeStands(u: Whole)
    ensures var buf, o := Text(u), |OriginText(u)|;
      && Stands(buf, 0, OriginText(u)) && Stands(buf, o, u.path) && Stands(buf, o + |u.path|, QueryText(u))
      && Stands(buf, o + |u.path| + |QueryText(u)|, FragmentText(u))
      && |buf| == o + |u.path| + |QueryText(u)| + |FragmentText(u)|
  {
    hide OriginText, QueryText, FragmentText, Stands;
    var o, q, f := OriginText(u), QueryText(u), FragmentText(u);
    WholeOfItself(Text(u));
    StandsParts(Text(u), 0, o + u.path, q, f);
    assert o + u.path + [] == o + u.path;
    StandsParts(Text(u), 0, o, u.path, []);
  }

  lemma OriginStands(buf: seq<byte>, u: Whole)
    requires u.origin.Some? && Stands(buf, 0, OriginText(u))
    ensures var (schema, a) := u.origin.value; var k := |schema|;
      && Stands(buf, 0, schema) && k + 3 <= |buf| && buf[k] == COLON && buf[k + 1] == 47 && buf[k + 2] == 47
      && Stands(buf, k + 3, AuthorityText(a)) && |OriginText(u)| == k + 3 + |AuthorityText(a)|
  {
    hide AuthorityText;
    var (schema, a) := u.origin.value;
    StandsParts(buf, 0, schema, [COLON, 47, 47], AuthorityText(a));
    ThreeStand(buf, |schema|, COLON, 47, 47);
  }

  lemma ThreeStand(buf: seq<byte>, p: nat, x: byte, y: byte, z: byte)
    requires Stands(buf, p, [x, y, z])
    ensures p + 3 <= |buf| && buf[p] == x && buf[p + 1] == y && buf[p + 2] == z
  {
    StandsAt(buf, p, [x, y, z], 0);
    StandsAt(buf, p, [x, y, z], 1);
    StandsAt(buf, p, [x, y, z], 2);
  }

  function OriginFields(u: Whole): Fields {
    if u.origin.None? then map[]
    else
      map[UfSchema := Span(0, |u.origin.value.0|),
          UfHost := Span(|u.origin.value.0| + 3, |AuthorityText(u.origin.value.1)|)]
  }

  lemma SchemaRuns(t: seq<byte>)
    requires t != [] && All(t, IsAlpha)
    ensures Runs(ReqSpacesBeforeUrl, t, UfSchema) && UrlAfter(ReqSpacesBeforeUrl, t) == ReqSchema
  {
    hide UrlAfter, Runs;
    forall i | 0 <= i < |t|
      ensures ParseUrlChar(ReqSpacesBeforeUrl, t[i]) == ReqSchema && ParseUrlChar(ReqSchema, t[i]) == ReqSchema
    {
      assert IsAlpha(t[i]);
    }
    Stayed(ReqSpacesBeforeUrl, ReqSchema, t, UfSchema);
  }

  lemma SchemaMarks()
    ensures ParseUrlChar(ReqSchema, COLON) == ReqSchemaSlash && ParseUrlChar(ReqSchemaSlash, 47) == ReqSchemaSlashSlash
    ensures ParseUrlChar(ReqSchemaSlashSlash, 47) == ReqServerStart
  {}

  lemma SchemaRead(buf: seq<byte>, schema: seq<byte>)
    requires Stands(buf, 0, schema) && schema != [] && All(schema, IsAlpha)
    requires var k := |schema|; k + 3 <= |buf| && buf[k] == COLON && buf[k + 1] == 47 && buf[k + 2] == 47
    ensures ScanTo(buf, false, |schema| + 3) == Scan(ReqServerStart, Some(UfSchema), false, map[UfSchema := Span(0, |schema|)])
  {
    ScanBegins(buf);
    hide ParseUrlChar, UrlAfter, Runs, Stands, ScanTo, All;
    var k := |schema|;
    SchemaRuns(schema);
    FieldRead(buf, false, 0, schema, UfSchema);
    SchemaMarks();
    DelimiterRead(buf, k, ReqSchemaSlash);
    DelimiterRead(buf, k + 1, ReqSchemaSlashSlash);
    DelimiterRead(buf, k + 2, ReqServerStart);
  }

  lemma ScanBegins(buf: seq<byte>)
    ensures ScanTo(buf, false, 0) == Scan(ReqSpacesBeforeUrl, None, false, map[])
  {}

  /** The first pass over schema and authority. */
  lemma OriginRead(buf: seq<byte>, u: Whole)
    requires u.origin.Some? && Stands(buf, 0, OriginText(u)) && LegalWhole(u)
    ensures ScanTo(buf, false, |OriginText(u)|)
      == Scan(ReqServer, Some(UfHost), u.origin.value.1.userinfo.Some?, OriginFields(u))
  {
    hide ParseUrlChar, UrlAfter, Runs, AuthorityText, LegalAuthority, OriginText, Stands, ScanTo, All;
    var (schema, a) := u.origin.value;
    OriginStands(buf, u);
    SchemaRead(buf, schema);
    AuthorityIsOneField(a);
    FieldRead(buf, false, |schema| + 3, AuthorityText(a), UfHost);
  }

  lemma PathRuns(s: State, t: seq<byte>)
    requires (s == ReqServer || s == ReqSpacesBeforeUrl) && t != [] && All(t, IsUrlChar)
    requires t[0] == 47 || (t[0] == 42 && s == ReqSpacesBeforeUrl)
    ensures Runs(s, t, UfPath) && UrlAfter(s, t) == ReqPath
  {
    hide UrlAfter, Runs;
    forall i | 0 <= i < |t|
      ensures ParseUrlChar(ReqPath, t[i]) == ReqPath
    {
      assert IsUrlChar(t[i]);
    }
    Stayed(s, ReqPath, t, UfPath);
  }

  lemma QueryRuns(t: seq<byte>)
    requires t != [] && All(t, InQuery)
    ensures Runs(ReqQueryStringStart, t, UfQuery) && UrlAfter(ReqQueryStringStart, t) == ReqQueryString
  {
    hide UrlAfter, Runs;
    forall i | 0 <= i < |t|
      ensures ParseUrlChar(ReqQueryStringStart, t[i]) == ReqQueryString && ParseUrlChar(ReqQueryString, t[i]) == ReqQueryString
    {
      assert InQuery(t[i]);
    }
    Stayed(ReqQueryStringStart, ReqQueryString, t, UfQuery);
  }

  lemma FragmentRuns(t: seq<byte>)
    requires t != [] && t[0] != 35 && All(t, InFragment)
    ensures Runs(ReqFragmentStart, t, UfFragment) && UrlAfter(ReqFragmentStart, t) == ReqFragment
  {
    hide UrlAfter, Runs;
    forall i | 0 <= i < |t|
      ensures ParseUrlChar(ReqFragment, t[i]) == ReqFragment
    {
      assert InFragment(t[i]);
    }
    assert InFragment(t[0]);
    Stayed(ReqFragmentStart, ReqFragment, t, UfFragment);
  }

  lemma StandsBehind(buf: seq<byte>, p: nat, mark: byte, t: seq<byte>)
    requires Stands(buf, p, [mark] + t)
    ensures Stands(buf, p + 1, t) && p < |buf|
  {
    assert [mark] + t + [] == [mark] + t;
    StandsParts(buf, p, [mark], t, []);
  }

  /** A delimiter and the field behind it. */
  lemma MarkedRead(buf: seq<byte>, p: nat, mark: byte, t: seq<byte>, s: State, f: UrlField)
    requires Stands(buf, p, [mark] + t) && t != []
    requires var c := ScanTo(buf, false, p); ParseUrlChar(c.s, mark) == s && FieldOf(s) == None && c.last != Some(f) && Runs(s, t, f)
    requires f != UfHost
    ensures var c := ScanTo(buf, false, p);
      ScanTo(buf, false, p + 1 + |t|) == Scan(UrlAfter(s, t), Some(f), c.foundAt, c.fields[f := Span(p + 1, |t|)])
    ensures Stands(buf, p + 1, t)
  {
    hide ParseUrlChar, UrlAfter, Runs, ScanTo, Stands;
    StandsAt(buf, p, [mark] + t, 0);
    StandsBehind(buf, p, mark, t);
    DelimiterRead(buf, p, s);
    FieldRead(buf, false, p + 1, t, f);
  }

  /** A part behind its delimiter; an empty one leaves its field unset. */
  function MarkedScan(c: Scan, entered: State, within: State, f: UrlField, p: nat, t: seq<byte>): Scan {
    if t == [] then c.(s := entered) else Scan(within, Some(f), c.foundAt, c.fields[f := Span(p + 1, |t|)])
  }

  /** A question mark and the query behind it. */
  lemma QueryStep(buf: seq<byte>, p: nat, t: seq<byte>)
    requires Stands(buf, p, [63] + t) && All(t, InQuery)
    requires var c := ScanTo(buf, false, p); (c.s == ReqServer || c.s == ReqPath) && c.last != Some(UfQuery)
    ensures ScanTo(buf, false, p + 1 + |t|)
      == MarkedScan(ScanTo(buf, false, p), ReqQueryStringStart, ReqQueryString, UfQuery, p, t)
  {
    hide UrlAfter, Runs, Stands, ScanTo, All;
    if t == [] {
      StandsAt(buf, p, [63] + t, 0);
      StandsBehind(buf, p, 63, t);
      DelimiterRead(buf, p, ReqQueryStringStart);
    } else {
      QueryRuns(t);
      MarkedRead(buf, p, 63, t, ReqQueryStringStart, UfQuery);
    }
  }

  predicate BeforeFragment(s: State) {
    s == ReqPath || s == ReqQueryString || s == ReqQueryStringStart || s == ReqFragmentStart
  }

  lemma SignByte(s: State)
    requires BeforeFragment(s)
    ensures ParseUrlChar(s, 35) == ReqFragmentStart
  {}

  /** Any number of number signs. */
  lemma {:induction false} SignsRead(buf: seq<byte>, p: nat, k: nat)
    requires Stands(buf, p, Signs(k)) && BeforeFragment(ScanTo(buf, false, p).s)
    ensures var c := ScanTo(buf, false, p); ScanTo(buf, false, p + k) == c.(s := if k == 0 then c.s else ReqFragmentStart)
  {
    hide ParseUrlChar, Stands, ScanTo, BeforeFragment;
    if k > 0 {
      LastSign(buf, p, k);
      SignsRead(buf, p, k - 1);
      StillBefore();
      SignByte(ScanTo(buf, false, p + k - 1).s);
      DelimiterRead(buf, p + k - 1, ReqFragmentStart);
    }
  }

  lemma StillBefore()
    ensures BeforeFragment(ReqFragmentStart)
  {}

  lemma LastSign(buf: seq<byte>, p: nat, k: nat)
    requires Stands(buf, p, Signs(k)) && k > 0
    ensures Stands(buf, p, Signs(k - 1)) && p + k - 1 < |buf| && buf[p + k - 1] == 35
  {
    StandsAt(buf, p, Signs(k), k - 1);
    SplitStands(buf, p, Signs(k), k - 1);
    assert Signs(k)[..k - 1] == Signs(k - 1);
  }

  lemma SignsStand(buf: seq<byte>, p: nat, k: nat, t: seq<byte>)
    requires Stands(buf, p, Signs(k) + ([35] + t))
    ensures Stands(buf, p, Signs(k)) && Stands(buf, p + k, [35] + t)
  {
    hide Stands;
    assert Signs(k) + ([35] + t) + [] == Signs(k) + ([35] + t);
    StandsParts(buf, p, Signs(k), [35] + t, []);
  }

  /** Number signs and the fragment behind them. */
  lemma FragmentRest(buf: seq<byte>, p: nat, k: nat, t: seq<byte>)
    requires Stands(buf, p, Signs(k) + ([35] + t)) && (t != [] ==> t[0] != 35) && All(t, InFragment)
    requires var c := ScanTo(buf, false, p);
      (c.s == ReqPath || c.s == ReqQueryString || c.s == ReqQueryStringStart) && c.last != Some(UfFragment)
    ensures ScanTo(buf, false, p + k + 1 + |t|)
      == MarkedScan(ScanTo(buf, false, p), ReqFragmentStart, ReqFragment, UfFragment, p + k, t)
  {
    hide Stands, ScanTo, All;
    SignsStand(buf, p, k, t);
    SignsRead(buf, p, k);
    FragmentStep(buf, p + k, t);
  }

  /** A number sign and the fragment behind it. */
  lemma FragmentStep(buf: seq<byte>, p: nat, t: seq<byte>)
    requires Stands(buf, p, [35] + t) && (t != [] ==> t[0] != 35) && All(t, InFragment)
    requires var c := ScanTo(buf, false, p); BeforeFragment(c.s) && c.last != Some(UfFragment)
    ensures ScanTo(buf, false, p + 1 + |t|)
      == MarkedScan(ScanTo(buf, false, p), ReqFragmentStart, ReqFragment, UfFragment, p, t)
  {
    hide UrlAfter, Runs, Stands, ScanTo, All;
    if t == [] {
      StandsAt(buf, p, [35] + t, 0);
      StandsBehind(buf, p, 35, t);
      DelimiterRead(buf, p, ReqFragmentStart);
    } else {
      FragmentRuns(t);
      MarkedRead(buf, p, 35, t, ReqFragmentStart, UfFragment);
    }
  }

  /** What the first pass has found before the query. */
  function PathScan(u: Whole): Scan {
    var at := u.origin.Some? && u.origin.value.1.userinfo.Some?;
    if u.path == [] then Scan(ReqServer, Some(UfHost), at, OriginFields(u))
    else Scan(ReqPath, Some(UfPath), at, OriginFields(u)[UfPath := Span(|OriginText(u)|, |u.path|)])
  }

  /** What the first pass has found before the path. */
  function OriginScan(u: Whole): Scan {
    if u.origin.Some? then Scan(ReqServer, Some(UfHost), u.origin.value.1.userinfo.Some?, OriginFields(u))
    else Scan(ReqSpacesBeforeUrl, None, false, map[])
  }

  lemma OriginScanned(buf: seq<byte>, u: Whole)
    requires Stands(buf, 0, OriginText(u)) && LegalWhole(u)
    ensures ScanTo(buf, false, |OriginText(u)|) == OriginScan(u)
  {
    if u.origin.Some? {
      OriginRead(buf, u);
    } else {
      ScanBegins(buf);
    }
  }

  lemma PathRead(buf: seq<byte>, u: Whole)
    requires Stands(buf, 0, OriginText(u)) && Stands(buf, |OriginText(u)|, u.path) && LegalWhole(u)
    ensures ScanTo(buf, false, |OriginText(u)| + |u.path|) == PathScan(u)
  {
    hide UrlAfter, Runs, Stands, ScanTo, All, OriginText, LegalAuthority;
    OriginScanned(buf, u);
    if u.path != [] {
      PathRuns(if u.origin.Some? then ReqServer else ReqSpacesBeforeUrl, u.path);
      FieldRead(buf, false, |OriginText(u)|, u.path, UfPath);
    }
  }

  function QueryScan(u: Whole): Scan {
    var c := PathScan(u);
    if u.query.None? then c
    else MarkedScan(c, ReqQueryStringStart, ReqQueryString, UfQuery, |OriginText(u)| + |u.path|, u.query.value)
  }

  lemma QueryRead(buf: seq<byte>, u: Whole)
    requires Stands(buf, 0, OriginText(u)) && Stands(buf, |OriginText(u)|, u.path) && LegalWhole(u)
    requires Stands(buf, |OriginText(u)| + |u.path|, QueryText(u))
    ensures ScanTo(buf, false, |OriginText(u)| + |u.path| + |QueryText(u)|) == QueryScan(u)
  {
    hide Stands, ScanTo, All, OriginText, LegalAuthority;
    PathRead(buf, u);
    if u.query.Some? {
      QueryStep(buf, |OriginText(u)| + |u.path|, u.query.value);
    }
  }

  function FragmentScan(u: Whole): Scan {
    var c := QueryScan(u);
    if u.fragment.None? then c
    else
      MarkedScan(c, ReqFragmentStart, ReqFragment, UfFragment, |OriginText(u)| + |u.path| + |QueryText(u)| + u.signs, u.fragment.value)
  }

  /** The first pass over the whole text. */
  lemma FragmentRead(u: Whole)
    requires LegalWhole(u)
    ensures ScanTo(Text(u), false, |Text(u)|) == FragmentScan(u)
  {
    hide Stands, ScanTo, All, OriginText, QueryText, LegalAuthority, Text;
    var buf := Text(u);
    WholeStands(u);
    QueryRead(buf, u);
    if u.fragment.Some? {
      FragmentRest(buf, |OriginText(u)| + |u.path| + |QueryText(u)|, u.signs, u.fragment.value);
    }
  }

  /** Where every part of the URL is. */
  function WholeFields(u: Whole): Fields {
    if u.origin.None? then FragmentScan(u).fields
    else FragmentScan(u).fields + AuthorityFields(u.origin.value.1, |u.origin.value.0| + 3)
  }

  function PortValue(u: Whole): nat
    requires LegalWhole(u)
  {
    if u.origin.Some? && u.origin.value.1.port.Some? then Decimal(u.origin.value.1.port.value) else 0
  }

  lemma StandsSlice(buf: seq<byte>, p: nat, t: seq<byte>)
    requires Stands(buf, p, t)
    ensures SliceOf(buf, Span(p, |t|)) == t
  {}

  /** The field is the same in both. */
  predicate Same(fs: Fields, fs1: Fields, g: UrlField) {
    (g in fs1 <==> g in fs) && (g in fs ==> fs1[g] == fs[g])
  }

  /** A marked part leaves every other field alone. */
  lemma MarkedKeeps(c: Scan, entered: State, within: State, f: UrlField, p: nat, t: seq<byte>)
    requires f !in c.fields
    ensures var c1 := MarkedScan(c, entered, within, f, p, t);
      && (c1.s == entered || c1.s == within) && c1.foundAt == c.foundAt
      && (f in c1.fields <==> t != []) && (f in c1.fields ==> c1.fields[f] == Span(p + 1, |t|))
      && forall g :: g != f ==> Same(c.fields, c1.fields, g)
  {
    if t != [] {
      assert MarkedScan(c, entered, within, f, p, t).fields == c.fields[f := Span(p + 1, |t|)];
    }
  }

  /** The fields before the query. */
  lemma PathFields(u: Whole)
    ensures var c, o := PathScan(u), |OriginText(u)|;
      && c.s != Dead && c.foundAt == (u.origin.Some? && u.origin.value.1.userinfo.Some?)
      && (UfHost in c.fields <==> u.origin.Some?) && (UfSchema in c.fields <==> u.origin.Some?)
      && (u.origin.Some? ==> c.fields[UfHost] == Span(|u.origin.value.0| + 3, |AuthorityText(u.origin.value.1)|))
      && (u.origin.Some? ==> c.fields[UfSchema] == Span(0, |u.origin.value.0|))
      && (UfPath in c.fields <==> u.path != []) && (u.path != [] ==> c.fields[UfPath] == Span(o, |u.path|))
      && UfUserinfo !in c.fields && UfPort !in c.fields && UfQuery !in c.fields && UfFragment !in c.fields
  {
    hide AuthorityText, OriginText;
  }

  lemma ScanFields(u: Whole)
    ensures var c := FragmentScan(u);
      && c.s != Dead && c.foundAt == (u.origin.Some? && u.origin.value.1.userinfo.Some?)
      && (UfHost in c.fields <==> u.origin.Some?) && (UfSchema in c.fields <==> u.origin.Some?)
      && (u.origin.Some? ==> c.fields[UfHost] == Span(|u.origin.value.0| + 3, |AuthorityText(u.origin.value.1)|))
  {
    hide AuthorityText, OriginText, QueryText, PathScan, FragmentScan;
    PathFields(u);
    MarkedFields(u);
    assert Same(PathScan(u).fields, FragmentScan(u).fields, UfHost) && Same(PathScan(u).fields, FragmentScan(u).fields, UfSchema);
  }

  /** The query and the fragment behind the rest. */
  lemma MarkedFields(u: Whole)
    ensures var c, c1, o := PathScan(u), FragmentScan(u), |OriginText(u)| + |u.path|;
      && (c.s != Dead ==> c1.s != Dead) && c1.foundAt == c.foundAt
      && (forall g :: g != UfQuery && g != UfFragment ==> Same(c.fields, c1.fields, g))
      && (UfQuery in c1.fields <==> Shown(u.query).Some?)
      && (UfQuery in c1.fields ==> c1.fields[UfQuery] == Span(o + 1, |u.query.value|))
      && (UfFragment in c1.fields <==> Shown(u.fragment).Some?)
      && (UfFragment in c1.fields ==> c1.fields[UfFragment] == Span(o + |QueryText(u)| + u.signs + 1, |u.fragment.value|))
  {
    hide AuthorityText, OriginText, QueryText, PathScan, MarkedScan;
    PathFields(u);
    var o := |OriginText(u)| + |u.path|;
    if u.query.Some? {
      MarkedKeeps(PathScan(u), ReqQueryStringStart, ReqQueryString, UfQuery, o, u.query.value);
    }
    assert Same(PathScan(u).fields, QueryScan(u).fields, UfFragment);
    if u.fragment.Some? {
      MarkedKeeps(QueryScan(u), ReqFragmentStart, ReqFragment, UfFragment, o + |QueryText(u)| + u.signs, u.fragment.value);
    }
    assert Same(QueryScan(u).fields, FragmentScan(u).fields, UfQuery);
    forall g | g != UfQuery && g != UfFragment
      ensures Same(PathScan(u).fields, FragmentScan(u).fields, g)
    {
      assert Same(PathScan(u).fields, QueryScan(u).fields, g) && Same(QueryScan(u).fields, FragmentScan(u).fields, g);
    }
  }

  /** Every port of the URL has digits and fits 16 bits. */
  predicate PortsFit(u: Whole)
    requires WellFormed(u)
  {
    u.origin.Some? ==> PortFits(u.origin.value.1)
  }

  lemma AuthorityPort(a: Authority)
    requires LegalAuthority(a)
    ensures a.port.Some? ==> Digits(a.port.value)
    ensures PortFits(a) <==> a.port != Some([]) && (a.port.Some? ==> Decimal(a.port.value) <= 0xffff)
  {
    hide LegalLiteral;
  }

  lemma AuthoritySplit(buf: seq<byte>, c: Scan, lo: nat, a: Authority)
    requires Stands(buf, lo, AuthorityText(a)) && LegalAuthority(a) && c.foundAt == a.userinfo.Some?
    requires a.port.Some? ==> Digits(a.port.value)
    ensures SplitHost(buf, c, lo, lo + |AuthorityText(a)|)
      == if PortFits(a) then Some(Parts(c.fields + AuthorityFields(a, lo), if a.port.Some? then Decimal(a.port.value) else 0))
         else None
  {
    hide HostTo, AuthorityText, UserText, HostText, PortOf, Stands, LegalAuthority, PortFits;
    AuthorityRead(buf, lo, a);
    PartsStand(buf, lo, a);
    AuthorityPort(a);
    if a.port.Some? {
      PortStands(buf, lo + |UserText(a)| + |HostText(a)|, a);
      StandsSlice(buf, lo + PortOffset(a), a.port.value);
    }
  }

  lemma NotEmpty(u: Whole)
    requires LegalWhole(u)
    ensures Text(u) != []
    ensures u.origin.Some? ==> LegalAuthority(u.origin.value.1)
  {
    hide AuthorityText, QueryText, FragmentText;
  }

  lemma WholeSplit(u: Whole)
    requires LegalWhole(u)
    ensures Split(Text(u), false) == if PortsFit(u) then Some(Parts(WholeFields(u), PortValue(u))) else None
  {
    hide Text, ScanTo, FragmentScan, AuthorityText, OriginText, Stands, AuthorityFields, SplitHost, LegalAuthority, LegalWhole, PortFits;
    var buf := Text(u);
    WholeStands(u);
    NotEmpty(u);
    FragmentRead(u);
    ScanFields(u);
    if u.origin.Some? {
      OriginStands(buf, u);
      var (schema, a) := u.origin.value;
      AuthorityPort(a);
      AuthoritySplit(buf, FragmentScan(u), |schema| + 3, a);
    }
  }

  // ---- Reading the parts back ------------------------------------------------------------------

  /** The text of a field, if it is set. */
  function TextOf(buf: seq<byte>, fs: Fields, f: UrlField): Option<seq<byte>> {
    if f in fs && fs[f].off + fs[f].len <= |buf| then Some(SliceOf(buf, fs[f])) else None
  }

  /** The fields, read from the text, are the parts. */
  predicate ReadsBack(buf: seq<byte>, fs: Fields, u: Whole) {
    && TextOf(buf, fs, UfSchema) == (if u.origin.Some? then Some(u.origin.value.0) else None)
    && TextOf(buf, fs, UfUserinfo) == (if u.origin.Some? then Shown(u.origin.value.1.userinfo) else None)
    && TextOf(buf, fs, UfHost) == (if u.origin.Some? then Some(u.origin.value.1.host) else None)
    && TextOf(buf, fs, UfPort) == (if u.origin.Some? then u.origin.value.1.port else None)
    && TextOf(buf, fs, UfPath) == (if u.path != [] then Some(u.path) else None)
    && TextOf(buf, fs, UfQuery) == Shown(u.query)
    && TextOf(buf, fs, UfFragment) == Shown(u.fragment)
  }

  lemma FieldReads(buf: seq<byte>, fs: Fields, f: UrlField, p: nat, t: seq<byte>)
    requires f in fs && fs[f] == Span(p, |t|) && Stands(buf, p, t)
    ensures TextOf(buf, fs, f) == Some(t)
  {
    StandsSlice(buf, p, t);
  }

  /** What the fields of an authority hold, whatever other fields there are. */
  lemma AuthorityShows(fs: Fields, lo: nat, a: Authority)
    requires UfUserinfo !in fs && UfPort !in fs
    ensures var all := fs + AuthorityFields(a, lo);
      && UfHost in all && all[UfHost] == Span(lo + HostOffset(a), |a.host|)
      && (UfUserinfo in all <==> Shown(a.userinfo).Some?) && (UfPort in all <==> Shown(a.port).Some?)
      && (UfUserinfo in all ==> all[UfUserinfo] == Span(lo, |a.userinfo.value|))
      && (UfPort in all ==> all[UfPort] == Span(lo + PortOffset(a), |a.port.value|))
  {
    hide HostOffset, PortOffset;
  }

  lemma HostStands(buf: seq<byte>, lo: nat, a: Authority)
    requires Stands(buf, lo, AuthorityText(a))
    ensures Stands(buf, lo + HostOffset(a), a.host)
  {
    hide Stands, UserText, PortOf, AuthorityText;
    PartsStand(buf, lo, a);
    if a.literal {
      LiteralStands(buf, lo + |UserText(a)|, a);
    }
  }

  lemma AuthorityReads(buf: seq<byte>, fs: Fields, lo: nat, a: Authority)
    requires Stands(buf, lo, AuthorityText(a))
    requires UfUserinfo !in fs && UfPort !in fs
    ensures var all := fs + AuthorityFields(a, lo);
      && TextOf(buf, all, UfUserinfo) == Shown(a.userinfo) && TextOf(buf, all, UfHost) == Some(a.host)
      && TextOf(buf, all, UfPort) == Shown(a.port)
  {
    hide Stands, UserText, HostText, PortOf, AuthorityText, AuthorityFields, HostOffset;
    PartsStand(buf, lo, a);
    HostStands(buf, lo, a);
    AuthorityShows(fs, lo, a);
    var all := fs + AuthorityFields(a, lo);
    FieldReads(buf, all, UfHost, lo + HostOffset(a), a.host);
    if UfUserinfo in all {
      UserStands(buf, lo, a);
      FieldReads(buf, all, UfUserinfo, lo, a.userinfo.value);
    }
    if UfPort in all {
      PortStands(buf, lo + |UserText(a)| + |HostText(a)|, a);
      FieldReads(buf, all, UfPort, lo + PortOffset(a), a.port.value);
    }
  }

  lemma FieldsAt(u: Whole)
    ensures var fs, o := FragmentScan(u).fields, |OriginText(u)|;
      && UfUserinfo !in fs && UfPort !in fs
      && (UfSchema in fs <==> u.origin.Some?) && (u.origin.Some? ==> fs[UfSchema] == Span(0, |u.origin.value.0|))
      && (UfPath in fs <==> u.path != []) && (u.path != [] ==> fs[UfPath] == Span(o, |u.path|))
      && (UfQuery in fs <==> Shown(u.query).Some?) && (UfQuery in fs ==> fs[UfQuery] == Span(o + |u.path| + 1, |u.query.value|))
      && (UfFragment in fs <==> Shown(u.fragment).Some?)
      && (UfFragment in fs ==> fs[UfFragment] == Span(o + |u.path| + |QueryText(u)| + u.signs + 1, |u.fragment.value|))
  {
    hide AuthorityText, OriginText, QueryText, PathScan, FragmentScan;
    PathFields(u);
    MarkedFields(u);
    var fs, fs1 := PathScan(u).fields, FragmentScan(u).fields;
    assert Same(fs, fs1, UfSchema) && Same(fs, fs1, UfUserinfo) && Same(fs, fs1, UfPort) && Same(fs, fs1, UfPath);
  }

  /** An optional field behind its delimiter. */
  lemma MarkedReads(buf: seq<byte>, fs: Fields, f: UrlField, p: nat, mark: byte, t: Option<seq<byte>>)
    requires t.Some? ==> Stands(buf, p, [mark] + t.value)
    requires (f in fs <==> Shown(t).Some?) && (f in fs ==> fs[f] == Span(p + 1, |t.value|))
    ensures TextOf(buf, fs, f) == Shown(t)
  {
    hide Stands;
    if f in fs {
      StandsBehind(buf, p, mark, t.value);
      FieldReads(buf, fs, f, p + 1, t.value);
    }
  }

  lemma TailReads(u: Whole)
    ensures var buf, fs := Text(u), FragmentScan(u).fields;
      && TextOf(buf, fs, UfPath) == (if u.path != [] then Some(u.path) else None)
      && TextOf(buf, fs, UfQuery) == Shown(u.query) && TextOf(buf, fs, UfFragment) == Shown(u.fragment)
      && UfUserinfo !in fs && UfPort !in fs
      && TextOf(buf, fs, UfSchema) == (if u.origin.Some? then Some(u.origin.value.0) else None)
  {
    hide Text, OriginText, Stands, AuthorityText, TextOf, FragmentScan;
    var buf, fs, o := Text(u), FragmentScan(u).fields, |OriginText(u)|;
    WholeStands(u);
    FieldsAt(u);
    MarkedReads(buf, fs, UfQuery, o + |u.path|, 63, u.query);
    if u.fragment.Some? {
      SignsStand(buf, o + |u.path| + |QueryText(u)|, u.signs, u.fragment.value);
    }
    MarkedReads(buf, fs, UfFragment, o + |u.path| + |QueryText(u)| + u.signs, 35, u.fragment);
    hide QueryText, FragmentText;
    NotThere(buf, fs);
    if u.origin.Some? {
      OriginStands(buf, u);
      FieldReads(buf, fs, UfSchema, 0, u.origin.value.0);
    }
    if u.path != [] {
      FieldReads(buf, fs, UfPath, o, u.path);
    }
  }

  /** Splitting finds every part, and no other, where it was put. */
  lemma SplitOfText(u: Whole)
    requires LegalWhole(u) && PortsFit(u)
    ensures Split(Text(u), false).Some?
    ensures var p := Split(Text(u), false).value; ReadsBack(Text(u), p.fields, u) && p.port == PortValue(u)
  {
    hide Text, Split, FragmentScan, Stands, AuthorityText, OriginText, AuthorityFields, TextOf, LegalWhole;
    WholeSplit(u);
    TailReads(u);
    ScanFields(u);
    if u.origin.Some? {
      WholeStands(u);
      OriginStands(Text(u), u);
      var (schema, a) := u.origin.value;
      AuthorityReads(Text(u), FragmentScan(u).fields, |schema| + 3, a);
      OtherFields(Text(u), FragmentScan(u).fields, a, |schema| + 3);
    } else {
      NotThere(Text(u), FragmentScan(u).fields);
    }
  }

  lemma NotThere(buf: seq<byte>, fs: Fields)
    ensures forall f :: f !in fs ==> TextOf(buf, fs, f) == None
  {}

  lemma OtherFields(buf: seq<byte>, fs: Fields, a: Authority, lo: nat)
    ensures forall f :: PassField(f) && f != UfHost ==> TextOf(buf, fs + AuthorityFields(a, lo), f) == TextOf(buf, fs, f)
  {}

  lemma BareFragmentRefused(u: Whole)
    requires WellFormed(u) && BareFragment(u)
    ensures Split(Text(u), false).None?
  {
    hide ScanTo, All, OriginText, LegalAuthority, Text;
    var buf, o := Text(u), |OriginText(u)|;
    var u1 := u.(fragment := None);
    WholeStands(u);
    assert OriginText(u1) == OriginText(u) by {
      SameOrigin(u, u1);
    }
    OriginRead(buf, u1);
    StandsAt(buf, o, FragmentText(u), 0);
    ServerHash(buf, o);
    DeadForGood(buf, false, o + 1, |buf|);
  }

  lemma SameOrigin(u: Whole, u1: Whole)
    requires u.origin == u1.origin
    ensures OriginText(u) == OriginText(u1)
  {}

  lemma ServerHash(buf: seq<byte>, i: nat)
    requires i < |buf| && buf[i] == 35 && ScanTo(buf, false, i).s == ReqServer
    ensures ScanTo(buf, false, i + 1).s == Dead
  {}

  /**
    The round trip: a URL composed of parts is split successfully iff its fragment, if any, does not
    follow the authority directly and its port, if any, is not empty and fits 16 bits (section 3 of
    RFC 3986 allows all of that). Then the fields are the parts that are not empty, each where it was
    put, none missing and no other set, and the port is its decimal value.
  */
  lemma ComposeThenSplit(u: Whole)
    requires WellFormed(u)
    ensures Split(Text(u), false).Some? <==> !BareFragment(u) && PortsFit(u)
    ensures Split(Text(u), false).Some? ==>
      var p := Split(Text(u), false).value; ReadsBack(Text(u), p.fields, u) && p.port == PortValue(u)
  {
    hide Text, Split, WellFormed, PortsFit;
    if BareFragment(u) {
      BareFragmentRefused(u);
    } else {
      WholeSplit(u);
      if PortsFit(u) {
        SplitOfText(u);
      }
    }
  }

  /** A path is accepted at any length, but told with its length only if a `uint16_t` can hold it. */
  lemma LongPath(t: seq<byte>)
    requires t != [] && t[0] == 47 && All(t, IsUrlChar)
    ensures HostFits(ScanTo(t, false, |t|))
    ensures Split(t, false).Some? && Split(t, false).value.fields == map[UfPath := Span(0, |t|)]
    ensures Shortened(Split(t, false).value.fields)[UfPath] == Span(0, |t| % 0x1_0000)
  {
    hide ScanTo, Split, All;
    var u := Whole(None, t, None, 0, None);
    assert [] + t + [] + [] == t;
    WholeSplit(u);
    FragmentRead(u);
    var none: Fields := map[];
    assert none[UfPath := Span(0, |t|)] == map[UfPath := Span(0, |t|)];
  }

  /** A URL whose authority is a name alone. */
  predicate PlainHost(u: Whole) {
    LegalWhole(u) && u.origin.Some? && u.origin.value.1.userinfo.None? && !u.origin.value.1.literal && u.origin.value.1.port.None?
  }

  /**
    A name of any length is split off in full, but in 16 bits only what its length leaves modulo 65536 is
    looked at: the URL is refused iff that is nothing, and otherwise the name is told with that length.
  */
  lemma LongHost(u: Whole)
    requires PlainHost(u) && |u.origin.value.0| + 3 <= 0xffff
    ensures Split(Text(u), false).Some?
    ensures var k, m, p := |u.origin.value.0| + 3, |u.origin.value.1.host| % 0x1_0000, ShortSplit(Text(u), false);
      (p.Some? <==> m != 0) && (p.Some? ==> UfHost in p.value.fields && p.value.fields[UfHost] == Span(k, m))
  {
    hide Text, ScanTo, FragmentScan, Split, Shortened, ShortHost, PassLeft, LegalWhole, LegalAuthority, Stands, All, PortsFit;
    PlainAuthority(u);
    WholeSplit(u);
    NotEmpty(u);
    FragmentRead(u);
    ScanFields(u);
    LeftByPass(Text(u), false);
    HostInPlace(u);
    var m := |u.origin.value.1.host| % 0x1_0000;
    PartLooked(Text(u), Shortened(FragmentScan(u).fields), |u.origin.value.0| + 3, u.origin.value.1.host[..m]);
  }

  lemma PlainAuthority(u: Whole)
    requires PlainHost(u)
    ensures var a := u.origin.value.1; AuthorityText(a) == a.host && All(a.host, IsHostChar) && PortsFit(u)
  {
    hide All;
    var a := u.origin.value.1;
    assert [] + a.host + [] == a.host;
  }

  lemma HostInPlace(u: Whole)
    requires PlainHost(u)
    ensures var k, m := |u.origin.value.0| + 3, |u.origin.value.1.host| % 0x1_0000;
      m <= |u.origin.value.1.host| && Stands(Text(u), k, u.origin.value.1.host[..m]) && All(u.origin.value.1.host[..m], IsHostChar)
  {
    hide Text, LegalWhole, LegalAuthority, Stands, OriginText, AuthorityText;
    PlainAuthority(u);
    WholeStands(u);
    OriginStands(Text(u), u);
    SplitStands(Text(u), |u.origin.value.0| + 3, u.origin.value.1.host, |u.origin.value.1.host| % 0x1_0000);
  }

  /** What the second pass makes of a host of these bytes. */
  lemma PartLooked(buf: seq<byte>, fs: Fields, lo: nat, t: seq<byte>)
    requires PassLeft(buf, fs) && UfHost in fs && fs[UfHost] == Span(lo, |t|) && Stands(buf, lo, t) && All(t, IsHostChar)
    requires |t| <= 0xffff
    ensures var p := ShortHost(buf, false, false, fs);
      (p.Some? <==> t != []) && (p.Some? ==> UfHost in p.value.fields && p.value.fields[UfHost] == Span(lo, |t|))
  {
    hide HostTo, HostByte, HostChar, All, Stands;
    HostStartState(buf, lo);
    HostChars(t);
    if t != [] {
      HostRun(buf, false, lo, lo, t, UfHost, InHost, |t|);
    }
  }

  // ---- CONNECT ---------------------------------------------------------------------------------

  /**
    The target of CONNECT is an authority. It is split successfully iff it has a port with digits that
    fits 16 bits and no userinfo, where an empty one before its `@` counts as none; host and port are
    then as they were put, and nothing else is set.
  */
  lemma ConnectTarget(a: Authority)
    requires LegalAuthority(a)
    ensures Split(AuthorityText(a), true).Some? <==> a.port.Some? && PortFits(a) && Shown(a.userinfo).None?
    ensures Split(AuthorityText(a), true).Some? ==>
      var t, p := AuthorityText(a), Split(AuthorityText(a), true).value;
      && TextOf(t, p.fields, UfHost) == Some(a.host) && TextOf(t, p.fields, UfPort) == a.port
      && p.fields.Keys == {UfHost, UfPort} && p.port == Decimal(a.port.value)
  {
    hide ScanTo, AuthorityText, LegalAuthority, PortFits, SplitHost, TextOf, Stands, AuthorityFields;
    var t := AuthorityText(a);
    ConnectScanned(a);
    AuthorityPort(a);
    var c := ScanTo(t, true, |t|);
    AuthoritySplit(t, c, 0, a);
    AuthorityReads(t, map[], 0, a);
    ConnectFields(c.fields, a, 0);
  }

  /** The first pass over a target of CONNECT finds a host and no more. */
  lemma ConnectScanned(a: Authority)
    requires LegalAuthority(a)
    ensures var t := AuthorityText(a); var c := ScanTo(t, true, |t|);
      && t != [] && Stands(t, 0, t) && c.s != Dead && c.foundAt == a.userinfo.Some?
      && c.fields == map[UfHost := Span(0, |t|)]
  {
    hide ScanTo, AuthorityText, LegalAuthority, Runs, UrlAfter, Stands;
    var t := AuthorityText(a);
    AuthorityIsOneField(a);
    ConnectBegins(t);
    WholeOfItself(t);
    FieldRead(t, true, 0, t, UfHost);
  }

  lemma WholeOfItself(t: seq<byte>)
    ensures Stands(t, 0, t)
  {}

  lemma ConnectBegins(t: seq<byte>)
    ensures ScanTo(t, true, 0) == Scan(ReqServerStart, None, false, map[])
  {}

  lemma ConnectFields(fs: Fields, a: Authority, lo: nat)
    requires fs.Keys == {UfHost}
    ensures fs + AuthorityFields(a, lo) == map[] + AuthorityFields(a, lo)
    ensures (fs + AuthorityFields(a, lo)).Keys == {UfHost, UfPort} <==> Shown(a.userinfo).None? && Shown(a.port).Some?
  {
    assert UfHost in AuthorityFields(a, lo);
    assert UfUserinfo in AuthorityFields(a, lo) <==> Shown(a.userinfo).Some?;
    assert UfPort in AuthorityFields(a, lo) <==> Shown(a.port).Some?;
  }
}
