/** The way back from an accepted URL to its parts: what is accepted has been composed of legal ones. */
module UrlLanguage {
  import opened Bytes
  import opened HttpTypes
  import opened HttpStep
  import opened HttpRequest
  import opened Url
  import opened UrlCompose

  // ---- What the first pass takes ---------------------------------------------------------------

  /** The parts that the first pass tells apart; `server` is the whole authority. */
  datatype Target = Target(schema: seq<byte>, server: seq<byte>, path: seq<byte>, query: Option<seq<byte>>, fragment: Option<seq<byte>>)

  function Front(u: Target): seq<byte> {
    if u.schema == [] then [] else u.schema + [COLON, 47, 47]
  }

  function QueryPart(u: Target): seq<byte> {
    if u.query.Some? then [63] + u.query.value else []
  }

  function FragmentPart(u: Target): seq<byte> {
    if u.fragment.Some? then [35] + u.fragment.value else []
  }

  function Spelled(u: Target): seq<byte> {
    Front(u) + u.server + u.path + QueryPart(u) + FragmentPart(u)
  }

  /** No `@` directly behind another one. */
  predicate ApartSigns(t: seq<byte>) {
    forall i :: 0 < i < |t| && t[i - 1] == 64 ==> t[i] != 64
  }

  /** The parts are legal, as far as the first pass looks at them. */
  predicate Loose(isConnect: bool, u: Target) {
    && All(u.schema, IsAlpha) && (isConnect ==> u.schema == [])
    && All(u.server, InAuthority) && ApartSigns(u.server)
    && (u.schema == [] && !isConnect ==> u.server == [] && u.path != [])
    && (u.path != [] ==> (u.path[0] == 47 || (u.path[0] == 42 && u.schema == [] && !isConnect)) && All(u.path, IsUrlChar))
    && (u.query.Some? ==> All(u.query.value, InQuery)) && (u.fragment.Some? ==> All(u.fragment.value, InFragment))
    && (u.fragment.Some? ==> u.path != [] || u.query.Some?)
  }

  /** Only number signs. */
  predicate SignsOnly(t: seq<byte>) {
    forall i :: 0 <= i < |t| ==> t[i] == 35
  }

  /** The state behind these parts. */
  function StateBehind(u: Target): State {
    if u.fragment.Some? then if SignsOnly(u.fragment.value) then ReqFragmentStart else ReqFragment
    else if u.query.Some? then if u.query.value == [] then ReqQueryStringStart else ReqQueryString
    else if u.path != [] then ReqPath
    else if u.server == [] then ReqServerStart
    else if u.server[|u.server| - 1] == 64 then ReqServerWithAt else ReqServer
  }

  /** How far the first pass has got. */
  datatype Stage = AtStart | InSchema | BehindColon | BehindSlash | Behind

  function Text1(u: Target, g: Stage): seq<byte> {
    match g
    case AtStart => []
    case InSchema => u.schema
    case BehindColon => u.schema + [COLON]
    case BehindSlash => u.schema + [COLON, 47]
    case Behind => Spelled(u)
  }

  function State1(u: Target, g: Stage): State {
    match g
    case AtStart => ReqSpacesBeforeUrl
    case InSchema => ReqSchema
    case BehindColon => ReqSchemaSlash
    case BehindSlash => ReqSchemaSlashSlash
    case Behind => StateBehind(u)
  }

  const NO_PARTS: Target := Target([], [], [], None, None)

  predicate Explains(isConnect: bool, u: Target, g: Stage) {
    && All(u.schema, IsAlpha)
    && (g == Behind ==> Loose(isConnect, u))
    && (g != Behind ==> !isConnect && u == NO_PARTS.(schema := u.schema) && (g == AtStart <==> u.schema == []))
  }

  /** One more byte of what comes behind the schema. */
  function Extend(u: Target, ch: byte): Target {
    if u.fragment.Some? then u.(fragment := Some(u.fragment.value + [ch]))
    else if u.query.Some? then if ch == 35 then u.(fragment := Some([])) else u.(query := Some(u.query.value + [ch]))
    else if u.path != [] then
      if ch == 35 then u.(fragment := Some([])) else if ch == 63 then u.(query := Some([])) else u.(path := u.path + [ch])
    else if ch == 47 then u.(path := [47])
    else if ch == 63 then u.(query := Some([]))
    else u.(server := u.server + [ch])
  }

  lemma AllSnoc(t: seq<byte>, ch: byte, p: byte -> bool)
    ensures All(t + [ch], p) <==> All(t, p) && p(ch)
  {
    assert (t + [ch])[|t|] == ch;
    assert forall i :: 0 <= i < |t| ==> (t + [ch])[i] == t[i];
  }

  lemma ExtendSpells(u: Target, ch: byte)
    requires !(u.path == [] && u.query.None? && u.fragment.None? && ch == 35)
    ensures Spelled(Extend(u, ch)) == Spelled(u) + [ch]
  {
    var u1, front := Extend(u, ch), Front(u);
    assert Front(u1) == front;
    hide Front;
    if u.fragment.Some? {
      assert FragmentPart(u1) == FragmentPart(u) + [ch];
    } else if u.query.Some? {
      assert ch != 35 ==> QueryPart(u1) == QueryPart(u) + [ch];
    }
  }

  /** Nothing behind the server yet. */
  predicate InServer(u: Target) {
    u.path == [] && u.query.None? && u.fragment.None?
  }

  /** What one byte makes of the parts. */
  predicate Extends(isConnect: bool, u: Target, ch: byte) {
    Loose(isConnect, Extend(u, ch)) && StateBehind(Extend(u, ch)) == ParseUrlChar(StateBehind(u), ch) && !(InServer(u) && ch == 35)
  }

  lemma ServerStep(isConnect: bool, u: Target, ch: byte)
    requires Loose(isConnect, u) && InServer(u) && ParseUrlChar(StateBehind(u), ch) != Dead
    ensures Extends(isConnect, u, ch)
  {
    hide ParseUrlChar, InAuthority, IsUrlChar, All, IsAlpha, ApartSigns;
    ServerBytes(StateBehind(u), ch);
    SlashIsPath();
    EmptyAll();
    if ch != 47 && ch != 63 {
      AllSnoc(u.server, ch, InAuthority);
      ApartSnoc(u.server, ch);
    }
  }

  lemma ApartSnoc(t: seq<byte>, ch: byte)
    requires ApartSigns(t) && (t != [] && t[|t| - 1] == 64 ==> ch != 64)
    ensures ApartSigns(t + [ch])
  {
    assert forall i :: 0 <= i < |t| ==> (t + [ch])[i] == t[i];
  }

  lemma ServerBytes(s: State, ch: byte)
    requires (s == ReqServerStart || s == ReqServer || s == ReqServerWithAt) && ParseUrlChar(s, ch) != Dead
    ensures ch != 35 && (s == ReqServerWithAt ==> ch != 64)
    ensures ch != 47 && ch != 63 ==> InAuthority(ch)
    ensures ParseUrlChar(s, ch)
      == if ch == 47 then ReqPath else if ch == 63 then ReqQueryStringStart else if ch == 64 then ReqServerWithAt else ReqServer
  {}

  lemma SlashIsPath()
    ensures All([47], IsUrlChar) && All([42], IsUrlChar)
  {}

  lemma EmptyAll()
    ensures All([], InQuery) && All([], InFragment) && All([], IsAlpha) && All([], InAuthority)
  {}

  lemma TailStep(isConnect: bool, u: Target, ch: byte)
    requires Loose(isConnect, u) && !InServer(u) && ParseUrlChar(StateBehind(u), ch) != Dead
    ensures Extends(isConnect, u, ch)
  {
    EmptyAll();
    AllSnoc(u.path, ch, IsUrlChar);
    hide All, InAuthority, ApartSigns;
    if u.fragment.Some? {
      FragmentBytes(StateBehind(u), ch);
      AllSnoc(u.fragment.value, ch, InFragment);
      SignsSnoc(u.fragment.value, ch);
      hide ParseUrlChar, InFragment, SignsOnly;
    } else if u.query.Some? {
      QueryBytes(StateBehind(u), ch);
      AllSnoc(u.query.value, ch, InQuery);
      hide ParseUrlChar, InQuery;
    } else {
      PathBytes(ch);
      hide ParseUrlChar, IsUrlChar;
    }
  }

  lemma SignsSnoc(t: seq<byte>, ch: byte)
    ensures SignsOnly(t + [ch]) <==> SignsOnly(t) && ch == 35
  {
    assert (t + [ch])[|t|] == ch;
    assert forall i :: 0 <= i < |t| ==> (t + [ch])[i] == t[i];
  }

  lemma FragmentBytes(s: State, ch: byte)
    requires (s == ReqFragmentStart || s == ReqFragment) && ParseUrlChar(s, ch) != Dead
    ensures InFragment(ch) && ParseUrlChar(s, ch) == if s == ReqFragmentStart && ch == 35 then ReqFragmentStart else ReqFragment
  {}

  lemma QueryBytes(s: State, ch: byte)
    requires (s == ReqQueryStringStart || s == ReqQueryString) && ParseUrlChar(s, ch) != Dead
    ensures ParseUrlChar(s, ch) == (if ch == 35 then ReqFragmentStart else ReqQueryString) && (ch != 35 ==> InQuery(ch))
  {}

  lemma PathBytes(ch: byte)
    requires ParseUrlChar(ReqPath, ch) != Dead
    ensures ParseUrlChar(ReqPath, ch) == (if ch == 35 then ReqFragmentStart else if ch == 63 then ReqQueryStringStart else ReqPath)
    ensures ch != 35 && ch != 63 ==> IsUrlChar(ch)
  {}

  // ---- Following the first pass ----------------------------------------------------------------

  /** What the first pass has noted. */
  predicate Noted(c: Scan, u: Target) {
    && (UfSchema in c.fields <==> u.schema != []) && (UfHost in c.fields <==> u.server != [])
    && (u.server != [] ==> c.fields[UfHost] == Span(|Front(u)|, |u.server|)) && (c.foundAt <==> 64 in u.server)
    && (u.server != [] && InServer(u) ==> c.last == Some(UfHost))
    && (u.server == [] ==> c.last != Some(UfHost))
    && TailNoted(c, u)
  }

  /** The parts behind the server have set their fields. */
  predicate TailNoted(c: Scan, u: Target) {
    && (u.path != [] ==> UfPath in c.fields) && (u.query.Some? && u.query.value != [] ==> UfQuery in c.fields)
    && (u.fragment.Some? && !SignsOnly(u.fragment.value) ==> UfFragment in c.fields)
  }

  lemma ServerNoted(c: Scan, u: Target, ch: byte, i: nat)
    requires Noted(c, u) && InServer(u) && c.s == StateBehind(u) && ParseUrlChar(c.s, ch) != Dead && i == |Front(u)| + |u.server|
    ensures Noted(ScanByte(c, ch, i), Extend(u, ch))
  {
    ServerBytes(c.s, ch);
    hide ParseUrlChar;
    var u1 := Extend(u, ch);
    assert Front(u1) == Front(u);
    if ch != 47 && ch != 63 {
      assert u1.server == u.server + [ch] && (64 in u1.server <==> 64 in u.server || ch == 64);
    }
  }

  lemma TailStaysNoted(isConnect: bool, c: Scan, u: Target, ch: byte, i: nat)
    requires Loose(isConnect, u) && Noted(c, u) && !InServer(u) && c.s == StateBehind(u) && ParseUrlChar(c.s, ch) != Dead
    ensures Noted(ScanByte(c, ch, i), Extend(u, ch))
  {
    hide ParseUrlChar, Loose, Front, StateBehind, ScanByte, TailNoted;
    TailStep(isConnect, u, ch);
    var u1 := Extend(u, ch);
    assert !InServer(u1) && u1.server == u.server && u1.schema == u.schema;
    SameSchema(u, u1);
    TailField(u1);
    FieldsKept(c, ch, i);
    TailMore(isConnect, c, u, ch, i);
  }

  lemma SameSchema(u: Target, u1: Target)
    requires u1.schema == u.schema
    ensures Front(u1) == Front(u)
  {}

  /** A byte touches no field but its own. */
  lemma FieldsKept(c: Scan, ch: byte, i: nat)
    ensures var c1, f := ScanByte(c, ch, i), FieldOf(ParseUrlChar(c.s, ch));
      && (forall g :: Some(g) != f ==> (g in c1.fields <==> g in c.fields) && (g in c.fields ==> c1.fields[g] == c.fields[g]))
      && (f.Some? ==> f.value in c1.fields && c1.last == f) && (f.None? ==> c1.last == c.last)
      && (ParseUrlChar(c.s, ch) != ReqServerWithAt ==> c1.foundAt == c.foundAt)
  {
    hide ParseUrlChar;
  }

  lemma TailMore(isConnect: bool, c: Scan, u: Target, ch: byte, i: nat)
    requires Loose(isConnect, u) && TailNoted(c, u) && !InServer(u) && c.s == StateBehind(u) && ParseUrlChar(c.s, ch) != Dead
    ensures TailNoted(ScanByte(c, ch, i), Extend(u, ch))
  {
    hide ParseUrlChar, Loose, ScanByte, SignsOnly;
    TailStep(isConnect, u, ch);
    FieldsKept(c, ch, i);
    if u.fragment.Some? {
      SignsSnoc(u.fragment.value, ch);
    }
    NoneIsSigns();
  }

  lemma TailField(u: Target)
    requires !InServer(u)
    ensures var f := FieldOf(StateBehind(u)); f != Some(UfHost) && f != Some(UfSchema) && StateBehind(u) != ReqServerWithAt
  {}

  /** One byte before the parts behind the schema. */
  lemma SchemaStep(isConnect: bool, c: Scan, u: Target, g: Stage, ch: byte, i: nat) returns (u1: Target, g1: Stage)
    requires g != Behind && Explains(isConnect, u, g) && c.s == State1(u, g) && Noted(c, u) && ParseUrlChar(c.s, ch) != Dead
    ensures Explains(isConnect, u1, g1) && ParseUrlChar(c.s, ch) == State1(u1, g1) && Text1(u1, g1) == Text1(u, g) + [ch]
    ensures Noted(ScanByte(c, ch, i), u1)
  {
    if g == AtStart {
      u1, g1 := StartStep(isConnect, c, u, ch, i);
    } else {
      u1, g1 := MarkStep(isConnect, c, u, g, ch, i);
    }
  }

  lemma StartStep(isConnect: bool, c: Scan, u: Target, ch: byte, i: nat) returns (u1: Target, g1: Stage)
    requires Explains(isConnect, u, AtStart) && c.s == ReqSpacesBeforeUrl && Noted(c, u) && ParseUrlChar(c.s, ch) != Dead
    ensures Explains(isConnect, u1, g1) && ParseUrlChar(c.s, ch) == State1(u1, g1) && Text1(u1, g1) == [ch]
    ensures Noted(ScanByte(c, ch, i), u1)
  {
    FirstBytes(ch);
    EmptyAll();
    SlashIsPath();
    hide ParseUrlChar, IsAlpha, IsUrlChar;
    if ch == 47 || ch == 42 {
      u1, g1 := NO_PARTS.(path := [ch]), Behind;
      assert [] + [] + [ch] + [] + [] == [ch];
    } else {
      u1, g1 := NO_PARTS.(schema := [ch]), InSchema;
    }
  }

  lemma FirstBytes(ch: byte)
    ensures ParseUrlChar(ReqSpacesBeforeUrl, ch) != Dead ==>
      if ch == 47 || ch == 42 then ParseUrlChar(ReqSpacesBeforeUrl, ch) == ReqPath
      else ParseUrlChar(ReqSpacesBeforeUrl, ch) == ReqSchema && IsAlpha(ch)
  {}

  lemma SchemaBytes(s: State, ch: byte)
    requires (s == ReqSchema || s == ReqSchemaSlash || s == ReqSchemaSlashSlash) && ParseUrlChar(s, ch) != Dead
    ensures match s
      case ReqSchema => if ch == COLON then ParseUrlChar(s, ch) == ReqSchemaSlash else ParseUrlChar(s, ch) == ReqSchema && IsAlpha(ch)
      case ReqSchemaSlash => ch == 47 && ParseUrlChar(s, ch) == ReqSchemaSlashSlash
      case _ => ch == 47 && ParseUrlChar(s, ch) == ReqServerStart
  {}

  lemma MarkStep(isConnect: bool, c: Scan, u: Target, g: Stage, ch: byte, i: nat) returns (u1: Target, g1: Stage)
    requires g != Behind && g != AtStart && Explains(isConnect, u, g) && c.s == State1(u, g) && Noted(c, u)
    requires ParseUrlChar(c.s, ch) != Dead
    ensures Explains(isConnect, u1, g1) && ParseUrlChar(c.s, ch) == State1(u1, g1) && Text1(u1, g1) == Text1(u, g) + [ch]
    ensures Noted(ScanByte(c, ch, i), u1)
  {
    SchemaBytes(c.s, ch);
    AllSnoc(u.schema, ch, IsAlpha);
    EmptyAll();
    hide ParseUrlChar, All, IsUrlChar;
    match g {
      case InSchema =>
        if ch == COLON {
          u1, g1 := u, BehindColon;
        } else {
          u1, g1 := u.(schema := u.schema + [ch]), InSchema;
        }
      case BehindColon =>
        u1, g1 := u, BehindSlash;
        assert u.schema + [COLON] + [47] == u.schema + [COLON, 47];
      case BehindSlash =>
        u1, g1 := u, Behind;
        assert Spelled(u) == u.schema + [COLON, 47, 47];
        assert u.schema + [COLON, 47] + [47] == u.schema + [COLON, 47, 47];
    }
  }

  /** Whatever the first pass takes consists of such parts. */
  lemma {:induction false} ScanExplained(buf: seq<byte>, isConnect: bool, i: nat) returns (u: Target, g: Stage)
    requires i <= |buf| && ScanTo(buf, isConnect, i).s != Dead
    ensures var c := ScanTo(buf, isConnect, i);
      Explains(isConnect, u, g) && c.s == State1(u, g) && buf[..i] == Text1(u, g) && Noted(c, u)
  {
    hide ParseUrlChar, Loose, Spelled, All, Noted;
    if i == 0 {
      u, g := NO_PARTS, if isConnect then Behind else AtStart;
      StartExplained(buf, isConnect);
    } else {
      var c, ch := ScanTo(buf, isConnect, i - 1), buf[i - 1];
      ScanStates(c, ch, i - 1);
      DeadStays(c.s, ch);
      var u0, g0 := ScanExplained(buf, isConnect, i - 1);
      assert buf[..i] == buf[..i - 1] + [ch];
      if g0 == Behind {
        u, g := Extend(u0, ch), Behind;
        BehindStep(isConnect, c, u0, ch, i - 1);
      } else {
        u, g := SchemaStep(isConnect, c, u0, g0, ch, i - 1);
      }
    }
  }

  lemma StartExplained(buf: seq<byte>, isConnect: bool)
    ensures var g := if isConnect then Behind else AtStart;
      Explains(isConnect, NO_PARTS, g) && State1(NO_PARTS, g) == ScanStart(isConnect).s && Text1(NO_PARTS, g) == []
      && Noted(ScanStart(isConnect), NO_PARTS)
  {
    EmptyAll();
  }

  lemma BehindStep(isConnect: bool, c: Scan, u: Target, ch: byte, i: nat)
    requires Loose(isConnect, u) && c.s == StateBehind(u) && Noted(c, u) && ParseUrlChar(c.s, ch) != Dead && i == |Spelled(u)|
    ensures Loose(isConnect, Extend(u, ch)) && StateBehind(Extend(u, ch)) == ParseUrlChar(c.s, ch)
    ensures Spelled(Extend(u, ch)) == Spelled(u) + [ch] && Noted(ScanByte(c, ch, i), Extend(u, ch))
    ensures All(Extend(u, ch).schema, IsAlpha)
  {
    hide ParseUrlChar, All, Noted;
    if InServer(u) {
      ServerStep(isConnect, u, ch);
      ServerNoted(c, u, ch, i);
    } else {
      TailStep(isConnect, u, ch);
      TailStaysNoted(isConnect, c, u, ch, i);
    }
    ExtendSpells(u, ch);
  }

  // ---- Targets ---------------------------------------------------------------------------------

  function FirstState(isConnect: bool): State {
    if isConnect then ReqServerStart else ReqSpacesBeforeUrl
  }

  lemma {:induction false} AfterIsScan(t: seq<byte>, isConnect: bool, i: nat)
    requires i <= |t|
    ensures UrlAfter(FirstState(isConnect), t[..i]) == ScanTo(t, isConnect, i).s
  {
    hide ParseUrlChar;
    if i > 0 {
      AfterIsScan(t, isConnect, i - 1);
      UrlSnoc(FirstState(isConnect), t, i);
      ScanStates(ScanTo(t, isConnect, i - 1), t[i - 1], i - 1);
    }
  }

  lemma AfterOne(s: State, t: seq<byte>, ch: byte)
    ensures UrlAfter(s, t + [ch]) == ParseUrlChar(UrlAfter(s, t), ch)
  {
    hide ParseUrlChar;
    assert (t + [ch])[..|t|] == t;
  }

  /** The parts without their last byte, if they are not only a schema or the beginning of a path. */
  function Shrunk(u: Target): Target {
    if u.fragment.Some? then
      u.(fragment := if u.fragment.value == [] then None else Some(u.fragment.value[..|u.fragment.value| - 1]))
    else if u.query.Some? then
      u.(query := if u.query.value == [] then None else Some(u.query.value[..|u.query.value| - 1]))
    else if u.path != [] then u.(path := u.path[..|u.path| - 1])
    else if u.server != [] then u.(server := u.server[..|u.server| - 1])
    else u
  }

  function LastByte(u: Target): byte {
    if u.fragment.Some? then if u.fragment.value == [] then 35 else u.fragment.value[|u.fragment.value| - 1]
    else if u.query.Some? then if u.query.value == [] then 63 else u.query.value[|u.query.value| - 1]
    else if u.path != [] then u.path[|u.path| - 1]
    else if u.server != [] then u.server[|u.server| - 1]
    else 0
  }

  /** Parts of one byte behind the schema, or none. */
  predicate Smallest(isConnect: bool, u: Target) {
    (InServer(u) && u.server == []) || (u.schema == [] && !isConnect && |u.path| == 1 && u.query.None? && u.fragment.None?)
  }

  lemma AllBut(t: seq<byte>, p: byte -> bool)
    requires All(t, p) && t != []
    ensures All(t[..|t| - 1], p) && p(t[|t| - 1])
  {}

  lemma ShrunkSpells(u: Target)
    requires !(InServer(u) && u.server == [])
    ensures Spelled(u) == Spelled(Shrunk(u)) + [LastByte(u)]
  {
    var u1, front := Shrunk(u), Front(u);
    assert Front(u1) == front;
    hide Front;
    if u.fragment.Some? {
      assert FragmentPart(u) == FragmentPart(u1) + [LastByte(u)];
    } else if u.query.Some? {
      assert QueryPart(u) == QueryPart(u1) + [LastByte(u)];
    } else if u.path != [] {
      assert u.path == u1.path + [LastByte(u)];
    } else {
      assert u.server == u1.server + [LastByte(u)];
    }
  }

  lemma ServerShrinks(isConnect: bool, u: Target)
    requires Loose(isConnect, u) && InServer(u) && u.server != []
    ensures Loose(isConnect, Shrunk(u)) && ParseUrlChar(StateBehind(Shrunk(u)), LastByte(u)) == StateBehind(u)
  {
    AllBut(u.server, InAuthority);
    AuthorityByte(StateBehind(Shrunk(u)), LastByte(u));
    hide ParseUrlChar, InAuthority, IsAlpha;
  }

  lemma PathShrinks(isConnect: bool, u: Target)
    requires Loose(isConnect, u) && u.path != [] && u.query.None? && u.fragment.None? && !Smallest(isConnect, u)
    ensures Loose(isConnect, Shrunk(u)) && ParseUrlChar(StateBehind(Shrunk(u)), LastByte(u)) == StateBehind(u)
  {
    hide ParseUrlChar, InAuthority, IsAlpha, IsUrlChar, ApartSigns, All;
    AllBut(u.path, IsUrlChar);
    PathTaken(StateBehind(Shrunk(u)), LastByte(u));
  }

  lemma PathTaken(s: State, ch: byte)
    requires if s == ReqPath then IsUrlChar(ch) else ch == 47 && (s == ReqServerStart || s == ReqServer || s == ReqServerWithAt)
    ensures ParseUrlChar(s, ch) == ReqPath
  {}

  lemma QueryShrinks(isConnect: bool, u: Target)
    requires Loose(isConnect, u) && u.query.Some? && u.fragment.None?
    ensures Loose(isConnect, Shrunk(u)) && ParseUrlChar(StateBehind(Shrunk(u)), LastByte(u)) == StateBehind(u)
  {
    hide ParseUrlChar, InAuthority, IsAlpha, IsUrlChar, ApartSigns, InQuery, All;
    if u.query.value != [] {
      AllBut(u.query.value, InQuery);
      QueryTaken(StateBehind(Shrunk(u)), LastByte(u));
    } else {
      QuestionTaken(StateBehind(Shrunk(u)));
    }
  }

  lemma QueryTaken(s: State, ch: byte)
    requires (s == ReqQueryStringStart || s == ReqQueryString) && InQuery(ch)
    ensures ParseUrlChar(s, ch) == ReqQueryString
  {}

  lemma QuestionTaken(s: State)
    requires s == ReqPath || s == ReqServerStart || s == ReqServer || s == ReqServerWithAt
    ensures ParseUrlChar(s, 63) == ReqQueryStringStart
  {}

  lemma FragmentShrinks(isConnect: bool, u: Target)
    requires Loose(isConnect, u) && u.fragment.Some?
    ensures Loose(isConnect, Shrunk(u)) && ParseUrlChar(StateBehind(Shrunk(u)), LastByte(u)) == StateBehind(u)
  {
    hide ParseUrlChar, InAuthority, IsAlpha, IsUrlChar, ApartSigns, InQuery, InFragment, All, SignsOnly;
    var v := u.fragment.value;
    if v != [] {
      AllBut(v, InFragment);
      assert v == v[..|v| - 1] + [v[|v| - 1]];
      SignsSnoc(v[..|v| - 1], v[|v| - 1]);
      FragmentTaken(StateBehind(Shrunk(u)), v[|v| - 1]);
    } else {
      NoneIsSigns();
      SignByte(StateBehind(Shrunk(u)));
    }
  }

  lemma NoneIsSigns()
    ensures SignsOnly([])
  {}

  lemma FragmentTaken(s: State, ch: byte)
    requires (s == ReqFragmentStart || s == ReqFragment) && InFragment(ch)
    ensures ParseUrlChar(s, ch) == if s == ReqFragmentStart && ch == 35 then ReqFragmentStart else ReqFragment
  {}

  /** The URL states take whatever is spelled of such parts. */
  lemma {:induction false} SpelledAfter(isConnect: bool, u: Target)
    requires Loose(isConnect, u)
    ensures UrlAfter(FirstState(isConnect), Spelled(u)) == StateBehind(u)
    decreases |Spelled(u)|
  {
    hide ParseUrlChar, Loose, Spelled, UrlAfter, LastByte, Shrunk, StateBehind;
    if Smallest(isConnect, u) {
      SmallestAfter(isConnect, u);
    } else {
      ShrunkSpells(u);
      if u.fragment.Some? {
        FragmentShrinks(isConnect, u);
      } else if u.query.Some? {
        QueryShrinks(isConnect, u);
      } else if u.path != [] {
        PathShrinks(isConnect, u);
      } else {
        ServerShrinks(isConnect, u);
      }
      SpelledAfter(isConnect, Shrunk(u));
      AfterOne(FirstState(isConnect), Spelled(Shrunk(u)), LastByte(u));
    }
  }

  lemma SmallestAfter(isConnect: bool, u: Target)
    requires Loose(isConnect, u) && Smallest(isConnect, u)
    ensures UrlAfter(FirstState(isConnect), Spelled(u)) == StateBehind(u)
  {
    hide ParseUrlChar;
    if u.schema != [] {
      hide UrlAfter;
      SchemaAfter(u.schema);
      assert Spelled(u) == u.schema + [COLON] + [47] + [47];
    } else if u.path != [] {
      AfterOne(ReqSpacesBeforeUrl, [], u.path[0]);
      PathBegins();
      assert Spelled(u) == [] + [u.path[0]];
    } else {
      assert Spelled(u) == [];
    }
  }

  lemma PathBegins()
    ensures ParseUrlChar(ReqSpacesBeforeUrl, 47) == ParseUrlChar(ReqSpacesBeforeUrl, 42) == ReqPath
  {}

  lemma SchemaAfter(t: seq<byte>)
    requires t != [] && All(t, IsAlpha)
    ensures UrlAfter(ReqSpacesBeforeUrl, t + [COLON] + [47] + [47]) == ReqServerStart
  {
    hide ParseUrlChar, UrlAfter, All;
    SchemaRuns(t);
    SchemaMarks();
    AfterOne(ReqSpacesBeforeUrl, t, COLON);
    AfterOne(ReqSpacesBeforeUrl, t + [COLON], 47);
    AfterOne(ReqSpacesBeforeUrl, t + [COLON] + [47], 47);
  }

  /** Nothing of the target is missing: it does not end with its schema. */
  predicate Ended(u: Target) {
    !(InServer(u) && u.server == [])
  }

  /**
    The targets of requests: the URL states take exactly what is spelled of a schema and an authority,
    or neither, of an authority alone for CONNECT, and a path, a query and a fragment, within what the
    first pass asks of them.
  */
  lemma TargetIff(m: Method, t: seq<byte>)
    ensures LegalTarget(m, t) <==> exists u :: Loose(m == CONNECT, u) && Ended(u) && Spelled(u) == t
  {
    hide ParseUrlChar, Loose, Spelled, UrlAfter, ScanTo;
    AfterIsScan(t, m == CONNECT, |t|);
    assert t[..|t|] == t;
    if LegalTarget(m, t) {
      var u, g := ScanExplained(t, m == CONNECT, |t|);
      assert g == Behind by {
        StagesInPrefix(u, g);
      }
      EndsBehind(u);
    }
    if u :| Loose(m == CONNECT, u) && Ended(u) && Spelled(u) == t {
      SpelledAfter(m == CONNECT, u);
      EndsBehind(u);
      SomethingSpelled(u);
    }
  }

  lemma StagesInPrefix(u: Target, g: Stage)
    ensures g == InSchema || g == BehindColon || g == BehindSlash ==> InPrefix(State1(u, g))
    ensures g == AtStart ==> Text1(u, g) == []
  {}

  lemma EndsBehind(u: Target)
    ensures StateBehind(u) != Dead && (InPrefix(StateBehind(u)) <==> !Ended(u))
  {}

  lemma SomethingSpelled(u: Target)
    requires Ended(u)
    ensures Spelled(u) != []
  {}
}
