/** `http_parser_parse_url`: a URL split into fields, and why the split is a partition. */
module Url {
  import opened Bytes
  import opened HttpTypes
  import opened HttpStep
  import opened HttpLengths

  datatype UrlField = UfSchema | UfHost | UfPort | UfPath | UfQuery | UfFragment | UfUserinfo

  /** A slice of the URL. */
  datatype Span = Span(off: nat, len: nat)

  /** `field_set` and `field_data`: a field is set iff it is in the map. */
  type Fields = map<UrlField, Span>

  datatype HostState =
    | HostDead | UserinfoStart | InUserinfo | HostStart | V6Start | InHost
    | V6 | V6End | V6ZoneStart | V6Zone | PortStart | InPort

  // ---- The first pass --------------------------------------------------------------------------

  /** The field that a byte belongs to, by the state it leads to; a delimiter belongs to none. */
  function FieldOf(s: State): Option<UrlField> {
    match s
    case ReqSchema => Some(UfSchema)
    case ReqServer => Some(UfHost)
    case ReqServerWithAt => Some(UfHost)
    case ReqPath => Some(UfPath)
    case ReqQueryString => Some(UfQuery)
    case ReqFragment => Some(UfFragment)
    case _ => None
  }

  datatype Scan = Scan(s: State, last: Option<UrlField>, foundAt: bool, fields: Fields)

  /** One turn of the loop, the byte being at `i`. */
  function ScanByte(c: Scan, ch: byte, i: nat): Scan {
    var s := ParseUrlChar(c.s, ch);
    match FieldOf(s)
    case None => c.(s := s)
    case Some(f) =>
      Scan(s, Some(f), c.foundAt || s == ReqServerWithAt,
           if c.last == Some(f) && f in c.fields then c.fields[f := Span(c.fields[f].off, c.fields[f].len + 1)]
           else c.fields[f := Span(i, 1)])
  }

  function ScanStart(isConnect: bool): Scan {
    Scan(if isConnect then ReqServerStart else ReqSpacesBeforeUrl, None, false, map[])
  }

  /** The first pass over `i` bytes. */
  function ScanTo(buf: seq<byte>, isConnect: bool, i: nat): Scan
    requires i <= |buf|
  {
    if i == 0 then ScanStart(isConnect) else ScanByte(ScanTo(buf, isConnect, i - 1), buf[i - 1], i - 1)
  }

  // ---- The host --------------------------------------------------------------------------------

  /** `http_parse_host_char`. */
  function HostChar(s: HostState, ch: byte): HostState {
    match s
    case UserinfoStart => UserinfoChar(ch)
    case InUserinfo => UserinfoChar(ch)
    case HostStart => if ch == 91 then V6Start else if IsHostChar(ch) then InHost else HostDead
    case InHost => if IsHostChar(ch) then InHost else if ch == COLON then PortStart else HostDead
    case V6End => if ch == COLON then PortStart else HostDead
    case V6 => if ch == 93 then V6End else if V6Char(ch) then V6 else if ch == 37 then V6ZoneStart else HostDead
    case V6Start => if V6Char(ch) then V6 else HostDead
    case V6Zone => if ch == 93 then V6End else if ZoneChar(ch) then V6Zone else HostDead
    case V6ZoneStart => if ZoneChar(ch) then V6Zone else HostDead
    case InPort => if IsNum(ch) then InPort else HostDead
    case PortStart => if IsNum(ch) then InPort else HostDead
    case HostDead => HostDead
  }

  function UserinfoChar(ch: byte): HostState {
    if ch == 64 then HostStart else if IsUserinfoChar(ch) then InUserinfo else HostDead
  }

  predicate V6Char(ch: byte) {
    IsHex(ch) || ch == COLON || ch == 46
  }

  predicate ZoneChar(ch: byte) {
    IsAlpha(ch) || IsNum(ch) || ch == 37 || ch == 46 || ch == 45 || ch == 95 || ch == 126
  }

  /** The state of `http_parse_host` and the fields it has written. */
  datatype HostScan = HostScan(s: HostState, fields: Fields)

  function Longer(fields: Fields, f: UrlField): Fields
    requires f in fields
  {
    fields[f := Span(fields[f].off, fields[f].len + 1)]
  }

  /** The field restarted at `p` unless the byte before belonged to it too; its length counted up. */
  function HostField(fields: Fields, f: UrlField, again: bool, anew: bool, p: nat): Fields {
    if f !in fields then fields[f := Span(p, 1)]
    else Longer(if again then fields else fields[f := Span(p, if anew then 0 else fields[f].len)], f)
  }

  function HostByte(h: HostScan, ch: byte, p: nat): HostScan {
    var s := HostChar(h.s, ch);
    match s
    case InHost => HostScan(s, HostField(h.fields, UfHost, h.s == InHost, false, p))
    case V6 => HostScan(s, HostField(h.fields, UfHost, h.s == V6, false, p))
    case V6ZoneStart => HostScan(s, HostField(h.fields, UfHost, true, false, p))
    case V6Zone => HostScan(s, HostField(h.fields, UfHost, true, false, p))
    case InPort => HostScan(s, HostField(h.fields, UfPort, h.s == InPort, true, p))
    case InUserinfo => HostScan(s, HostField(h.fields, UfUserinfo, h.s == InUserinfo, true, p))
    case _ => HostScan(s, h.fields)
  }

  /** `http_parse_host` over the bytes from `lo` up to `p`. */
  function HostTo(buf: seq<byte>, foundAt: bool, lo: nat, p: nat): HostScan
    requires lo <= p <= |buf|
  {
    if p == lo then HostScan(if foundAt then UserinfoStart else HostStart, map[UfHost := Span(lo, 0)])
    else HostByte(HostTo(buf, foundAt, lo, p - 1), buf[p - 1], p - 1)
  }

  /** The states in which a host may end. */
  predicate HostComplete(s: HostState) {
    s == InHost || s == V6End || s == InPort
  }

  // ---- The whole -------------------------------------------------------------------------------

  datatype Parts = Parts(fields: Fields, port: nat)

  function SliceOf(buf: seq<byte>, s: Span): seq<byte>
    requires s.off + s.len <= |buf|
  {
    buf[s.off..s.off + s.len]
  }

  // ---- Tilings ---------------------------------------------------------------------------------

  /** The order in which fields come in a URL. */
  function Order(f: UrlField): nat {
    match f
    case UfSchema => 0 case UfUserinfo => 1 case UfHost => 2 case UfPort => 3
    case UfPath => 4 case UfQuery => 5 case UfFragment => 6
  }

  predicate Occupied(fs: Fields, f: UrlField) {
    f in fs && fs[f].len > 0
  }

  predicate Covers(fs: Fields, f: UrlField, j: nat) {
    f in fs && fs[f].off <= j < fs[f].off + fs[f].len
  }

  predicate Covered(fs: Fields, j: nat) {
    exists f :: Covers(fs, f, j)
  }

  /** `: / @ [ ] ? #`. */
  predicate Delimiter(b: byte) {
    b == COLON || b == 47 || b == 64 || b == 91 || b == 93 || b == 63 || b == 35
  }

  predicate Inside(fs: Fields, lo: nat, hi: nat) {
    forall f :: Occupied(fs, f) ==> lo <= fs[f].off && fs[f].off + fs[f].len <= hi
  }

  /** Pairwise disjoint and in the order of a URL. */
  predicate Ordered(fs: Fields) {
    forall f, g :: Occupied(fs, f) && Occupied(fs, g) && Order(f) < Order(g) ==> fs[f].off + fs[f].len <= fs[g].off
  }

  predicate GapsDelimit(buf: seq<byte>, fs: Fields, lo: nat, hi: nat)
    requires hi <= |buf|
  {
    forall j :: lo <= j < hi && !Covered(fs, j) ==> Delimiter(buf[j])
  }

  /** The fields lie between `lo` and `hi`, disjoint and in order, and only delimiters lie outside them. */
  predicate Tiled(buf: seq<byte>, fs: Fields, lo: nat, hi: nat)
    requires hi <= |buf|
  {
    Inside(fs, lo, hi) && Ordered(fs) && GapsDelimit(buf, fs, lo, hi)
  }

  /** No field beyond the `k`-th in order is occupied. */
  predicate UpTo(fs: Fields, k: int) {
    forall f :: Occupied(fs, f) ==> Order(f) <= k
  }

  lemma TiledSkip(buf: seq<byte>, fs: Fields, lo: nat, i: nat)
    requires lo <= i < |buf| && Tiled(buf, fs, lo, i) && Delimiter(buf[i])
    ensures Tiled(buf, fs, lo, i + 1)
  {}

  /** A byte added to the last field, or starting a field behind all others. */
  lemma TiledByte(buf: seq<byte>, fs: Fields, lo: nat, i: nat, f: UrlField, fs1: Fields)
    requires lo <= i < |buf| && Tiled(buf, fs, lo, i)
    requires f in fs1 && fs1 == fs[f := fs1[f]] && UpTo(fs, Order(f))
    requires if Occupied(fs, f) then fs[f].off + fs[f].len == i && fs1[f] == Span(fs[f].off, fs[f].len + 1) else fs1[f] == Span(i, 1)
    ensures Tiled(buf, fs1, lo, i + 1) && UpTo(fs1, Order(f)) && Occupied(fs1, f)
  {
    assert UpTo(fs1, Order(f)) by {
      forall a | Occupied(fs1, a)
        ensures Order(a) <= Order(f)
      {
        assert a == f || Occupied(fs, a);
      }
    }
    forall a, b | Occupied(fs1, a) && Occupied(fs1, b) && Order(a) < Order(b)
      ensures fs1[a].off + fs1[a].len <= fs1[b].off
    {
      assert a != f && Occupied(fs, a);
      assert b == f || Occupied(fs, b);
    }
    GapsStay(buf, fs, lo, i, f, fs1);
  }

  lemma GapsStay(buf: seq<byte>, fs: Fields, lo: nat, i: nat, f: UrlField, fs1: Fields)
    requires lo <= i < |buf| && GapsDelimit(buf, fs, lo, i) && f in fs1 && fs1 == fs[f := fs1[f]]
    requires if Occupied(fs, f) then fs[f].off + fs[f].len == i && fs1[f] == Span(fs[f].off, fs[f].len + 1) else fs1[f] == Span(i, 1)
    ensures GapsDelimit(buf, fs1, lo, i + 1)
  {
    forall j | lo <= j < i + 1 && !Covered(fs1, j)
      ensures Delimiter(buf[j])
    {
      assert !Covers(fs1, f, j);
      forall g
        ensures !Covers(fs, g, j)
      {
        assert !Covers(fs1, g, j);
      }
    }
  }

  // ---- The first pass tiles --------------------------------------------------------------------

  /** The order of the last field that can be occupied in a state. */
  function Level(s: State): int {
    match s
    case ReqSchema | ReqSchemaSlash | ReqSchemaSlashSlash | ReqServerStart => 0
    case ReqServer | ReqServerWithAt => 2
    case ReqPath | ReqQueryStringStart => 4
    case ReqQueryString | ReqFragmentStart => 5
    case ReqFragment => 6
    case _ => -1
  }

  predicate PassField(f: UrlField) {
    f != UfPort && f != UfUserinfo
  }

  predicate ScanOk(buf: seq<byte>, c: Scan, i: nat)
    requires i <= |buf|
  {
    && (c.s == ReqSpacesBeforeUrl || UrlState(c.s))
    && Tiled(buf, c.fields, 0, i) && UpTo(c.fields, Level(c.s))
    && (forall f :: f in c.fields ==> Occupied(c.fields, f) && PassField(f))
    && (c.last.Some? ==> c.last.value in c.fields)
    && match FieldOf(c.s)
       case Some(f) => c.last == Some(f) && f in c.fields && c.fields[f].off + c.fields[f].len == i
       case None => c.last.Some? ==> Order(c.last.value) <= Level(c.s)
  }

  lemma LevelStep(s: State, ch: byte)
    requires (s == ReqSpacesBeforeUrl || UrlState(s)) && ParseUrlChar(s, ch) != Dead
    ensures var s1 := ParseUrlChar(s, ch);
      match FieldOf(s1)
      case None => Delimiter(ch) && Level(s) <= Level(s1)
      case Some(f) => PassField(f) && Order(f) == Level(s1) && (FieldOf(s) == Some(f) || Order(f) > Level(s))
  {}

  lemma UpToMore(fs: Fields, k: int, l: int)
    requires UpTo(fs, k) && k <= l
    ensures UpTo(fs, l)
  {}

  lemma ScanStep(buf: seq<byte>, c: Scan, i: nat)
    requires i < |buf| && ScanOk(buf, c, i) && ParseUrlChar(c.s, buf[i]) != Dead
    ensures ScanOk(buf, ScanByte(c, buf[i], i), i + 1)
  {
    hide ParseUrlChar, Tiled, UpTo, Delimiter, Level, Order;
    var s1 := ParseUrlChar(c.s, buf[i]);
    LevelStep(c.s, buf[i]);
    UpToMore(c.fields, Level(c.s), if Level(c.s) <= Level(s1) then Level(s1) else Level(c.s));
    match FieldOf(s1)
    case None => TiledSkip(buf, c.fields, 0, i);
    case Some(f) =>
      if FieldOf(c.s) != Some(f) {
        NotYet(c.fields, f, Level(c.s));
      } else {
        SameLevel(c.s, s1);
      }
      TiledByte(buf, c.fields, 0, i, f, ScanByte(c, buf[i], i).fields);
  }

  lemma NotYet(fs: Fields, f: UrlField, k: int)
    requires UpTo(fs, k) && Order(f) > k
    ensures !Occupied(fs, f)
  {}

  lemma SameLevel(s: State, s1: State)
    requires FieldOf(s).Some? && FieldOf(s) == FieldOf(s1)
    ensures Level(s) == Level(s1)
  {}

  lemma {:induction false} ScanTiles(buf: seq<byte>, isConnect: bool, i: nat)
    requires i <= |buf| && ScanTo(buf, isConnect, i).s != Dead
    ensures ScanOk(buf, ScanTo(buf, isConnect, i), i)
  {
    hide ScanOk, ParseUrlChar;
    if i == 0 {
      StartOk(buf, isConnect);
    } else {
      var c := ScanTo(buf, isConnect, i - 1);
      ScanStates(c, buf[i - 1], i - 1);
      DeadStays(c.s, buf[i - 1]);
      ScanTiles(buf, isConnect, i - 1);
      ScanStep(buf, c, i - 1);
    }
  }

  lemma ScanStates(c: Scan, ch: byte, i: nat)
    ensures ScanByte(c, ch, i).s == ParseUrlChar(c.s, ch)
  {
    hide ParseUrlChar;
  }

  lemma DeadStays(s: State, ch: byte)
    ensures s == Dead ==> ParseUrlChar(s, ch) == Dead
  {}

  lemma LastIsSet(buf: seq<byte>, c: Scan, i: nat)
    requires i <= |buf| && ScanOk(buf, c, i)
    ensures c.last.Some? ==> c.last.value in c.fields
  {}

  lemma StartOk(buf: seq<byte>, isConnect: bool)
    ensures ScanOk(buf, ScanStart(isConnect), 0)
  {}

  // ---- The host tiles --------------------------------------------------------------------------

  function HostFieldOf(s: HostState): Option<UrlField> {
    match s
    case InUserinfo => Some(UfUserinfo)
    case InHost | V6 | V6ZoneStart | V6Zone => Some(UfHost)
    case InPort => Some(UfPort)
    case _ => None
  }

  function HostLevel(s: HostState): nat {
    match s
    case InUserinfo | HostStart | V6Start => 1
    case InHost | V6 | V6End | V6ZoneStart | V6Zone | PortStart => 2
    case InPort => 3
    case _ => 0
  }

  predicate PortDigits(buf: seq<byte>, fs: Fields, p: nat)
    requires p <= |buf|
  {
    UfPort in fs ==> forall j :: fs[UfPort].off <= j < fs[UfPort].off + fs[UfPort].len && j < p ==> IsNum(buf[j])
  }

  predicate HostOk(buf: seq<byte>, lo: nat, h: HostScan, p: nat)
    requires p <= |buf|
  {
    && h.s != HostDead && lo <= p && UfHost in h.fields
    && Tiled(buf, h.fields, lo, p) && UpTo(h.fields, HostLevel(h.s)) && PortDigits(buf, h.fields, p)
    && (forall f :: f in h.fields ==> f == UfHost || (Occupied(h.fields, f) && (f == UfPort || f == UfUserinfo)))
    && (HostLevel(h.s) >= 2 ==> Occupied(h.fields, UfHost))
    && match HostFieldOf(h.s)
       case Some(f) => Occupied(h.fields, f) && h.fields[f].off + h.fields[f].len == p
       case None => true
  }

  /** What a byte of the host does to the fields. */
  lemma HostByteShape(h: HostScan, ch: byte, p: nat)
    requires HostChar(h.s, ch) != HostDead && UfHost in h.fields
    requires HostLevel(h.s) < 2 ==> h.fields[UfHost].len == 0
    requires HostLevel(h.s) < 1 ==> UfUserinfo !in h.fields
    requires HostLevel(h.s) < 3 ==> UfPort !in h.fields
    requires HostFieldOf(h.s).Some? ==> HostFieldOf(h.s).value in h.fields
    ensures var h1 := HostByte(h, ch, p);
      match HostFieldOf(h1.s)
      case None => Delimiter(ch) && h1.fields == h.fields && HostLevel(h.s) <= HostLevel(h1.s)
        && (HostLevel(h1.s) >= 2 ==> HostLevel(h.s) >= 2)
      case Some(f) =>
        && Order(f) == HostLevel(h1.s) && (f == UfPort ==> IsNum(ch) && HostLevel(h.s) >= 2)
        && if HostFieldOf(h.s) == Some(f) then h1.fields == Longer(h.fields, f)
           else Order(f) > HostLevel(h.s) && h1.fields == h.fields[f := Span(p, 1)]
  {
    hide IsHostChar, IsUserinfoChar, ZoneChar;
  }

  /** The port is the same, or one digit longer, or begins with this digit. */
  lemma DigitsMore(buf: seq<byte>, fs: Fields, fs1: Fields, p: nat)
    requires p < |buf| && PortDigits(buf, fs, p)
    requires UfPort in fs ==> UfPort in fs1 && fs[UfPort].off + fs[UfPort].len <= p
    requires UfPort in fs1 && UfPort in fs ==>
      || fs1[UfPort] == fs[UfPort]
      || (IsNum(buf[p]) && fs[UfPort].off + fs[UfPort].len == p && fs1[UfPort] == Span(fs[UfPort].off, fs[UfPort].len + 1))
    requires UfPort in fs1 && UfPort !in fs ==> IsNum(buf[p]) && fs1[UfPort] == Span(p, 1)
    ensures PortDigits(buf, fs1, p + 1)
  {}

  lemma HostStep(buf: seq<byte>, lo: nat, h: HostScan, p: nat)
    requires p < |buf| && HostOk(buf, lo, h, p) && HostChar(h.s, buf[p]) != HostDead
    ensures HostOk(buf, lo, HostByte(h, buf[p], p), p + 1)
  {
    hide HostChar, HostByte, Tiled, UpTo, Delimiter, PortDigits;
    var h1 := HostByte(h, buf[p], p);
    HostByteState(h, buf[p], p);
    HostUpTo(h.fields, HostLevel(h.s));
    HostByteShape(h, buf[p], p);
    UpToMore(h.fields, HostLevel(h.s), if HostLevel(h.s) <= HostLevel(h1.s) then HostLevel(h1.s) else HostLevel(h.s));
    InsideOf(buf, h.fields, lo, p);
    match HostFieldOf(h1.s)
    case None =>
      TiledSkip(buf, h.fields, lo, p);
      DigitsMore(buf, h.fields, h1.fields, p);
    case Some(f) =>
      SameHostLevel(h.s, h1.s);
      TiledByte(buf, h.fields, lo, p, f, h1.fields);
      DigitsMore(buf, h.fields, h1.fields, p);
  }

  lemma InsideOf(buf: seq<byte>, fs: Fields, lo: nat, hi: nat)
    requires hi <= |buf| && Tiled(buf, fs, lo, hi)
    ensures Inside(fs, lo, hi)
  {}

  lemma HostByteState(h: HostScan, ch: byte, p: nat)
    ensures HostByte(h, ch, p).s == HostChar(h.s, ch)
  {
    hide HostChar;
  }

  lemma SameHostLevel(s: HostState, s1: HostState)
    requires HostFieldOf(s1).Some?
    ensures HostFieldOf(s) == HostFieldOf(s1) ==> HostLevel(s) == HostLevel(s1)
    ensures Order(HostFieldOf(s1).value) == HostLevel(s1)
  {}

  /** What cannot be set yet, by level. */
  lemma HostUpTo(fs: Fields, k: nat)
    requires UpTo(fs, k)
    ensures k < 2 ==> !Occupied(fs, UfHost)
    ensures k < 1 ==> !Occupied(fs, UfUserinfo)
    ensures k < 3 ==> !Occupied(fs, UfPort)
  {
    assert Order(UfHost) == 2 && Order(UfUserinfo) == 1 && Order(UfPort) == 3;
  }

  lemma {:induction false} HostTiles(buf: seq<byte>, foundAt: bool, lo: nat, p: nat)
    requires lo <= p <= |buf| && HostTo(buf, foundAt, lo, p).s != HostDead
    ensures HostOk(buf, lo, HostTo(buf, foundAt, lo, p), p)
  {
    hide HostOk, HostChar, HostByte;
    var h1 := HostTo(buf, foundAt, lo, p);
    if p == lo {
      HostStartOk(buf, foundAt, lo);
    } else {
      var h := HostTo(buf, foundAt, lo, p - 1);
      HostByteState(h, buf[p - 1], p - 1);
      HostDeadStays(h.s, buf[p - 1]);
      HostTiles(buf, foundAt, lo, p - 1);
      HostStep(buf, lo, h, p - 1);
    }
  }

  lemma HostKeys(buf: seq<byte>, lo: nat, h: HostScan, p: nat)
    requires p <= |buf| && HostOk(buf, lo, h, p)
    ensures UfHost in h.fields && (h.s == InPort ==> UfPort in h.fields) && (h.s == InUserinfo ==> UfUserinfo in h.fields)
  {}

  lemma HostDeadStays(s: HostState, ch: byte)
    ensures s == HostDead ==> HostChar(s, ch) == HostDead
  {}

  lemma HostStartOk(buf: seq<byte>, foundAt: bool, lo: nat)
    requires lo <= |buf|
    ensures HostOk(buf, lo, HostTo(buf, foundAt, lo, lo), lo)
  {}

  // ---- Both passes together --------------------------------------------------------------------

  predicate HostPart(f: UrlField) {
    f == UfHost || f == UfPort || f == UfUserinfo
  }

  /** Fields that tile the host, put in its place, tile the whole. */
  lemma MergeTiles(buf: seq<byte>, fs: Fields, hs: Fields)
    requires UfHost in fs && UfHost in hs && Occupied(fs, UfHost)
    requires Tiled(buf, fs, 0, |buf|)
    requires var host := fs[UfHost]; host.off + host.len <= |buf| && Tiled(buf, hs, host.off, host.off + host.len)
    requires (forall f :: f in hs ==> HostPart(f)) && (forall f :: f in fs ==> PassField(f))
    ensures Tiled(buf, fs + hs, 0, |buf|)
  {
    var all := fs + hs;
    var host := fs[UfHost];
    forall f, g | Occupied(all, f) && Occupied(all, g) && Order(f) < Order(g)
      ensures all[f].off + all[f].len <= all[g].off
    {
      if f in hs && g in hs {
        assert Occupied(hs, f) && Occupied(hs, g);
      } else if f in hs {
        assert Occupied(hs, f) && Occupied(fs, g) && Order(UfHost) < Order(g);
      } else if g in hs {
        assert Occupied(hs, g) && Occupied(fs, f) && Order(f) < Order(UfHost);
      } else {
        assert Occupied(fs, f) && Occupied(fs, g);
      }
    }
    forall f | Occupied(all, f)
      ensures all[f].off + all[f].len <= |buf|
    {
      assert if f in hs then Occupied(hs, f) else Occupied(fs, f);
    }
    forall j | 0 <= j < |buf| && !Covered(all, j)
      ensures Delimiter(buf[j])
    {
      GapInBoth(buf, fs, hs, j);
    }
  }

  lemma GapInBoth(buf: seq<byte>, fs: Fields, hs: Fields, j: nat)
    requires UfHost in fs && UfHost in hs && j < |buf| && !Covered(fs + hs, j)
    requires fs[UfHost].off + fs[UfHost].len <= |buf| && GapsDelimit(buf, fs, 0, |buf|)
    requires GapsDelimit(buf, hs, fs[UfHost].off, fs[UfHost].off + fs[UfHost].len)
    requires (forall f :: f in hs ==> HostPart(f)) && (forall f :: f in fs ==> PassField(f))
    ensures Delimiter(buf[j])
  {
    var all := fs + hs;
    forall f
      ensures !Covers(hs, f, j) && (f != UfHost ==> !Covers(fs, f, j))
    {
      assert !Covers(all, f, j);
    }
    if Covers(fs, UfHost, j) {
      assert !Covered(hs, j);
    } else {
      assert !Covered(fs, j);
    }
  }

  lemma HostBounds(buf: seq<byte>, isConnect: bool)
    requires var c := ScanTo(buf, isConnect, |buf|); c.s != Dead && UfHost in c.fields
    ensures var host := ScanTo(buf, isConnect, |buf|).fields[UfHost]; host.off + host.len <= |buf| && host.len > 0
  {
    ScanTiles(buf, isConnect, |buf|);
  }

  /** The port is in bounds and made of digits. */
  lemma PortBounds(buf: seq<byte>, foundAt: bool, lo: nat, hi: nat)
    requires lo <= hi <= |buf|
    requires var h := HostTo(buf, foundAt, lo, hi); h.s != HostDead && UfPort in h.fields
    ensures var port := HostTo(buf, foundAt, lo, hi).fields[UfPort];
      port.off + port.len <= |buf| && Digits(SliceOf(buf, port))
  {
    HostTiles(buf, foundAt, lo, hi);
  }

  /** The fields that a URL with a host comes to. */
  function SplitHost(buf: seq<byte>, c: Scan, lo: nat, hi: nat): Option<Parts>
    requires lo <= hi <= |buf|
  {
    var h := HostTo(buf, c.foundAt, lo, hi);
    if !HostComplete(h.s) then None
    else if UfPort !in h.fields then Some(Parts(c.fields + h.fields, 0))
    else
      PortBounds(buf, c.foundAt, lo, hi);
      var port := Decimal(SliceOf(buf, h.fields[UfPort]));
      if port > 0xffff then None else Some(Parts(c.fields + h.fields, port))
  }

  /** What `http_parser_parse_url` makes of a URL, if it takes it. */
  function Split(buf: seq<byte>, isConnect: bool): Option<Parts> {
    var c := ScanTo(buf, isConnect, |buf|);
    if buf == [] || c.s == Dead then None
    else if UfHost !in c.fields then
      if UfSchema in c.fields || isConnect then None else Some(Parts(c.fields, 0))
    else
      HostBounds(buf, isConnect);
      var host := c.fields[UfHost];
      match SplitHost(buf, c, host.off, host.off + host.len)
      case None => None
      case Some(p) => if isConnect && p.fields.Keys != {UfHost, UfPort} then None else Some(p)
  }

  /** What a caller may rely on. */
  predicate Partition(buf: seq<byte>, isConnect: bool, p: Parts) {
    && (forall f :: f in p.fields ==> p.fields[f].len > 0)
    && Tiled(buf, p.fields, 0, |buf|)
    && (UfSchema in p.fields ==> UfHost in p.fields)
    && (UfPort in p.fields || UfUserinfo in p.fields ==> UfHost in p.fields)
    && (isConnect ==> p.fields.Keys == {UfHost, UfPort})
    && (if UfPort in p.fields then
          && p.fields[UfPort].off + p.fields[UfPort].len <= |buf| && Digits(SliceOf(buf, p.fields[UfPort]))
          && p.port == Decimal(SliceOf(buf, p.fields[UfPort])) <= 0xffff
        else p.port == 0)
  }

  /**
    Splitting is a partition: the fields set are not empty, lie in the URL, pairwise disjoint and in
    the order schema, userinfo, host, port, path, query, fragment; every byte outside them is a
    delimiter; and the port is the exact decimal value of its digits, at most 65535.
  */
  lemma SplitIsPartition(buf: seq<byte>, isConnect: bool)
    requires Split(buf, isConnect).Some?
    ensures Partition(buf, isConnect, Split(buf, isConnect).value)
  {
    hide ParseUrlChar, HostChar, HostByte, ScanByte, ScanTo, HostTo, Tiled, UpTo, Level, HostLevel, HostFieldOf, FieldOf, SplitHost;
    var c := ScanTo(buf, isConnect, |buf|);
    ScanTiles(buf, isConnect, |buf|);
    if UfHost in c.fields {
      HostBounds(buf, isConnect);
      var host := c.fields[UfHost];
      SplitHostPartition(buf, isConnect, c, host.off, host.off + host.len);
    }
  }

  lemma SplitHostPartition(buf: seq<byte>, isConnect: bool, c: Scan, lo: nat, hi: nat)
    requires lo < hi <= |buf| && ScanOk(buf, c, |buf|) && UfHost in c.fields && c.fields[UfHost] == Span(lo, hi - lo)
    requires SplitHost(buf, c, lo, hi).Some?
    ensures Partition(buf, false, SplitHost(buf, c, lo, hi).value)
  {
    hide ParseUrlChar, HostChar, HostByte, ScanByte, ScanTo, HostTo, Tiled, UpTo, Level, HostLevel, HostFieldOf, FieldOf;
    var h := HostTo(buf, c.foundAt, lo, hi);
    CompleteLevel(h.s);
    HostTiles(buf, c.foundAt, lo, hi);
    MergeTiles(buf, c.fields, h.fields);
    if UfPort in h.fields {
      PortBounds(buf, c.foundAt, lo, hi);
    }
  }

  lemma CompleteLevel(s: HostState)
    requires HostComplete(s)
    ensures HostLevel(s) >= 2 && s != HostDead
  {}

  lemma {:induction false} DeadForGood(buf: seq<byte>, isConnect: bool, i: nat, j: nat)
    requires i <= j <= |buf| && ScanTo(buf, isConnect, i).s == Dead
    ensures ScanTo(buf, isConnect, j).s == Dead
  {
    hide ParseUrlChar;
    if i < j {
      DeadForGood(buf, isConnect, i, j - 1);
      DeadStays(ScanTo(buf, isConnect, j - 1).s, buf[j - 1]);
    }
  }

  lemma {:induction false} HostDeadForGood(buf: seq<byte>, foundAt: bool, lo: nat, i: nat, j: nat)
    requires lo <= i <= j <= |buf| && HostTo(buf, foundAt, lo, i).s == HostDead
    ensures HostTo(buf, foundAt, lo, j).s == HostDead
  {
    hide HostChar, HostByte;
    if i < j {
      HostDeadForGood(buf, foundAt, lo, i, j - 1);
      var h := HostTo(buf, foundAt, lo, j - 1);
      HostByteState(h, buf[j - 1], j - 1);
      HostDeadStays(h.s, buf[j - 1]);
    }
  }

  lemma {:induction false} DecimalGrows(ds: seq<byte>, i: nat)
    requires i <= |ds| && Digits(ds)
    ensures Digits(ds[..i]) && Decimal(ds[..i]) <= Decimal(ds)
    decreases |ds|
  {
    if i < |ds| {
      DecimalGrows(ds[..|ds| - 1], i);
      assert ds[..|ds| - 1][..i] == ds[..i];
    } else {
      assert ds[..i] == ds;
    }
  }

  /** What a byte of the host writes, case by case. */
  lemma HostByteFields(h: HostScan, ch: byte, p: nat)
    requires UfHost in h.fields && (h.s == InPort ==> UfPort in h.fields) && (h.s == InUserinfo ==> UfUserinfo in h.fields)
    ensures var s1, m, m1 := HostChar(h.s, ch), h.fields, HostByte(h, ch, p).fields;
      match s1
      case InHost | V6 =>
        m1 == m[UfHost := if h.s == s1 then Span(m[UfHost].off, m[UfHost].len + 1) else Span(p, m[UfHost].len + 1)]
      case V6ZoneStart | V6Zone => m1 == m[UfHost := Span(m[UfHost].off, m[UfHost].len + 1)]
      case InPort => m1 == m[UfPort := if h.s == s1 then Span(m[UfPort].off, m[UfPort].len + 1) else Span(p, 1)]
      case InUserinfo => m1 == m[UfUserinfo := if h.s == s1 then Span(m[UfUserinfo].off, m[UfUserinfo].len + 1) else Span(p, 1)]
      case _ => m1 == m
  {
    hide HostChar;
  }

  lemma AtHasField()
    ensures FieldOf(ReqServerWithAt) == Some(UfHost)
  {}

  lemma UpdateOfSum(others: Fields, own: Fields, f: UrlField, x: Span)
    ensures (others + own)[f := x] == others + own[f := x]
  {}

  // ---- The original's loops --------------------------------------------------------------------

  lemma NoSplit(buf: seq<byte>, isConnect: bool)
    ensures buf == [] || ScanTo(buf, isConnect, |buf|).s == Dead ==> Split(buf, isConnect).None?
  {
    hide ScanTo;
  }

  lemma ScanOne(buf: seq<byte>, isConnect: bool, p: nat)
    requires p < |buf|
    ensures ScanTo(buf, isConnect, p + 1) == ScanByte(ScanTo(buf, isConnect, p), buf[p], p)
  {
    hide ScanByte;
  }

  /** One turn of the loop over the URL. */
  lemma ScanTurn(buf: seq<byte>, isConnect: bool, p: nat)
    requires p < |buf| && ScanTo(buf, isConnect, p).s != Dead
    ensures var c, c1 := ScanTo(buf, isConnect, p), ScanTo(buf, isConnect, p + 1);
      && c1 == ScanByte(c, buf[p], p) && c1.s == ParseUrlChar(c.s, buf[p])
      && (FieldOf(c1.s).Some? && c.last == FieldOf(c1.s) ==> FieldOf(c1.s).value in c.fields)
  {
    hide ScanByte, ParseUrlChar, ScanTo, ScanOk, FieldOf;
    var c := ScanTo(buf, isConnect, p);
    ScanOne(buf, isConnect, p);
    ScanStates(c, buf[p], p);
    ScanTiles(buf, isConnect, p);
    LastIsSet(buf, c, p);
  }

  /** What is left of a number in a `uint16_t`. */
  function Short(n: nat): (r: nat)
    ensures r <= n && r <= 0xffff
  {
    n % 0x1_0000
  }

  function ShortSpan(s: Span): Span {
    Span(Short(s.off), Short(s.len))
  }

  /** The fields as `struct http_parser_url` can hold them. */
  function Shortened(fs: Fields): (r: Fields)
    ensures r.Keys == fs.Keys && forall f :: f in fs ==> r[f] == ShortSpan(fs[f])
  {
    map f | f in fs :: ShortSpan(fs[f])
  }

  /** Nothing is lost iff every offset and length fits. */
  lemma ShortenedIff(fs: Fields)
    ensures Shortened(fs) == fs <==> forall f :: f in fs ==> fs[f].off <= 0xffff && fs[f].len <= 0xffff
  {
    if Shortened(fs) == fs {
      forall f | f in fs
        ensures fs[f].off <= 0xffff && fs[f].len <= 0xffff
      {
        assert Shortened(fs)[f] == ShortSpan(fs[f]);
      }
    }
  }

  lemma ShortenedUpdate(fs: Fields, f: UrlField, x: Span)
    ensures Shortened(fs[f := x]) == Shortened(fs)[f := ShortSpan(x)]
  {}

  lemma ShortenedSum(fs: Fields, gs: Fields)
    ensures Shortened(fs + gs) == Shortened(fs) + Shortened(gs)
  {}

  lemma ShortNext(n: nat)
    ensures Short(Short(n) + 1) == Short(n + 1)
  {}

  /** Counting a field up in short numbers is counting it up. */
  lemma ShortFits(fs: Fields, f: UrlField, p: nat)
    ensures ShortSpan(Span(p, 1)) == Span(Short(p), 1)
    ensures f in fs ==>
      var x, y := fs[f], Shortened(fs)[f]; ShortSpan(Span(x.off, x.len + 1)) == Span(y.off, Short(y.len + 1))
  {
    if f in fs {
      ShortNext(fs[f].len);
    }
  }

  function WrittenField(s1: HostState): UrlField {
    match s1 case InPort => UfPort case InUserinfo => UfUserinfo case _ => UfHost
  }

  /** The field that a byte at `p` is written to, `y` being that field before, in short numbers. */
  function ShortWritten(s: HostState, s1: HostState, y: Span, p: nat): Span {
    match s1
    case InHost | V6 => Span(if s == s1 then y.off else Short(p), Short(y.len + 1))
    case InPort | InUserinfo => if s == s1 then Span(y.off, Short(y.len + 1)) else Span(Short(p), Short(1))
    case _ => Span(y.off, Short(y.len + 1))
  }

  lemma HostByteShort(h: HostScan, ch: byte, p: nat, f: UrlField, y: Span)
    requires UfHost in h.fields && (h.s == InPort ==> UfPort in h.fields) && (h.s == InUserinfo ==> UfUserinfo in h.fields)
    requires f == WrittenField(HostChar(h.s, ch))
    requires f in h.fields ==> y == ShortSpan(h.fields[f])
    ensures var s1, m, m1 := HostChar(h.s, ch), Shortened(h.fields), Shortened(HostByte(h, ch, p).fields);
      m1 == if HostFieldOf(s1).Some? then m[f := ShortWritten(h.s, s1, y, p)] else m
  {
    hide HostChar, HostByte, Shortened, Short;
    HostByteFields(h, ch, p);
    if f in h.fields {
      ShortNext(h.fields[f].len);
    }
    var m1 := HostByte(h, ch, p).fields;
    if f in m1 {
      ShortenedUpdate(h.fields, f, m1[f]);
    }
  }

  /** The same next to other fields. */
  lemma HostByteSum(others: Fields, h: HostScan, ch: byte, p: nat, y: Span)
    requires UfHost in h.fields && (h.s == InPort ==> UfPort in h.fields) && (h.s == InUserinfo ==> UfUserinfo in h.fields)
    requires var f, fields := WrittenField(HostChar(h.s, ch)), others + Shortened(h.fields); f in fields ==> y == fields[f]
    ensures var s1, fields := HostChar(h.s, ch), others + Shortened(h.fields);
      others + Shortened(HostByte(h, ch, p).fields)
        == if HostFieldOf(s1).Some? then fields[WrittenField(s1) := ShortWritten(h.s, s1, y, p)] else fields
  {
    hide HostChar, HostByte, ShortWritten, HostFieldOf, Short, WrittenField;
    var f := WrittenField(HostChar(h.s, ch));
    HostByteShort(h, ch, p, f, y);
    UpdateOfSum(others, Shortened(h.fields), f, ShortWritten(h.s, HostChar(h.s, ch), y, p));
  }

  lemma PassOnly(buf: seq<byte>, c: Scan)
    requires ScanOk(buf, c, |buf|)
    ensures UfPort !in c.fields && UfUserinfo !in c.fields
  {
    hide Tiled;
  }

  /** In a URL that is not longer than a `uint16_t` tells, nothing is lost. */
  lemma ShortUrl(buf: seq<byte>, isConnect: bool)
    requires |buf| <= 0xffff && ScanTo(buf, isConnect, |buf|).s != Dead
    ensures HostFits(ScanTo(buf, isConnect, |buf|))
    ensures Split(buf, isConnect).Some? ==>
      var p := Split(buf, isConnect).value; Shortened(p.fields) == p.fields && Partition(buf, isConnect, p)
  {
    hide ScanTo, Split, Shortened, Tiled;
    if UfHost in ScanTo(buf, isConnect, |buf|).fields {
      HostBounds(buf, isConnect);
    }
    if Split(buf, isConnect).Some? {
      var p := Split(buf, isConnect).value;
      SplitIsPartition(buf, isConnect);
      InsideOf(buf, p.fields, 0, |buf|);
      ShortenedIff(p.fields);
    }
  }

  /** An authority within the range is seen as it is, and so is the port in it. */
  lemma FitsExact(buf: seq<byte>, c: Scan)
    requires HostFits(c) && UfHost in c.fields
    ensures Shortened(c.fields)[UfHost] == c.fields[UfHost]
    ensures var host := c.fields[UfHost];
      host.off + host.len <= |buf| ==>
        var h := HostTo(buf, c.foundAt, host.off, host.off + host.len);
        h.s != HostDead && UfPort in h.fields ==> ShortSpan(h.fields[UfPort]) == h.fields[UfPort]
  {
    hide HostTo, HostByte, HostChar, Tiled;
    var host := c.fields[UfHost];
    if host.off + host.len <= |buf| {
      var h := HostTo(buf, c.foundAt, host.off, host.off + host.len);
      if h.s != HostDead {
        HostTiles(buf, c.foundAt, host.off, host.off + host.len);
        InsideOf(buf, h.fields, host.off, host.off + host.len);
      }
    }
  }

  lemma HostNext(buf: seq<byte>, foundAt: bool, lo: nat, p: nat)
    requires lo <= p < |buf|
    ensures HostTo(buf, foundAt, lo, p + 1) == HostByte(HostTo(buf, foundAt, lo, p), buf[p], p)
    ensures HostTo(buf, foundAt, lo, p + 1).s == HostChar(HostTo(buf, foundAt, lo, p).s, buf[p])
  {
    hide HostByte, HostChar;
    HostByteState(HostTo(buf, foundAt, lo, p), buf[p], p);
  }

  /** The fields once the byte at `p`, which led from `s` to `s1`, is taken into its own. */
  function Written(m: Fields, s: HostState, s1: HostState, p: nat): Fields {
    var f := WrittenField(s1);
    if HostFieldOf(s1).Some? then m[f := ShortWritten(s, s1, if f in m then m[f] else Span(0, 0), p)] else m
  }

  /** Where the loop over the host stands at `p`. */
  ghost predicate HostAt(buf: seq<byte>, foundAt: bool, lo: nat, p: nat, s: HostState, fields: Fields, others: Fields) {
    && lo <= p <= |buf| && s == HostTo(buf, foundAt, lo, p).s != HostDead
    && fields == others + Shortened(HostTo(buf, foundAt, lo, p).fields)
  }

  lemma HostBegins(buf: seq<byte>, foundAt: bool, lo: nat, others: Fields)
    requires lo <= |buf| && lo <= 0xffff
    ensures HostAt(buf, foundAt, lo, lo, if foundAt then UserinfoStart else HostStart, others[UfHost := Span(lo, 0)], others)
  {
    var m: Fields := map[UfHost := Span(lo, 0)];
    assert Shortened(m) == m;
    assert others[UfHost := Span(lo, 0)] == others + m;
  }

  /** One turn of that loop. */
  lemma HostTurn(buf: seq<byte>, foundAt: bool, lo: nat, p: nat, s: HostState, fields: Fields, others: Fields)
    requires HostAt(buf, foundAt, lo, p, s, fields, others) && p < |buf| && HostChar(s, buf[p]) != HostDead
    ensures UfHost in fields && (s == InPort ==> UfPort in fields) && (s == InUserinfo ==> UfUserinfo in fields)
    ensures var s1 := HostChar(s, buf[p]); HostAt(buf, foundAt, lo, p + 1, s1, Written(fields, s, s1, p), others)
  {
    hide HostTo, HostByte, HostChar, HostOk, Shortened, ShortWritten, HostFieldOf, WrittenField;
    var h := HostTo(buf, foundAt, lo, p);
    HostNext(buf, foundAt, lo, p);
    HostTiles(buf, foundAt, lo, p);
    HostKeys(buf, lo, h, p);
    var f := WrittenField(HostChar(s, buf[p]));
    HostByteSum(others, h, buf[p], p, if f in fields then fields[f] else Span(0, 0));
  }

  lemma HostDies(buf: seq<byte>, foundAt: bool, lo: nat, p: nat, s: HostState, fields: Fields, others: Fields, hi: nat)
    requires HostAt(buf, foundAt, lo, p, s, fields, others) && p < hi <= |buf| && HostChar(s, buf[p]) == HostDead
    ensures HostTo(buf, foundAt, lo, hi).s == HostDead && !HostComplete(HostDead)
  {
    hide HostTo, HostByte, HostChar;
    HostNext(buf, foundAt, lo, p);
    HostDeadForGood(buf, foundAt, lo, p + 1, hi);
  }

  lemma HostEnds(buf: seq<byte>, foundAt: bool, lo: nat, p: nat, s: HostState, fields: Fields, others: Fields)
    requires HostAt(buf, foundAt, lo, p, s, fields, others)
    ensures s == HostTo(buf, foundAt, lo, p).s != HostDead && fields == others + Shortened(HostTo(buf, foundAt, lo, p).fields)
  {
    hide HostTo, Shortened;
  }

  /** The states in which a host may not end, one by one. */
  lemma HostStates(s: HostState)
    requires s != HostDead
    ensures HostComplete(s) || s == HostStart || s == V6Start || s == V6 || s == V6ZoneStart || s == V6Zone || s == PortStart
      || s == InUserinfo || s == UserinfoStart
    ensures HostComplete(s) ==> s == InHost || s == V6End || s == InPort
  {}

  /** Where the loop over the URL stands at `p`. */
  ghost predicate UrlAt(buf: seq<byte>, isConnect: bool, p: nat, s: State, last: Option<UrlField>, foundAt: bool, fields: Fields) {
    && p <= |buf| && s != Dead
    && var c := ScanTo(buf, isConnect, p); c.s == s && c.last == last && c.foundAt == foundAt && fields == Shortened(c.fields)
  }

  lemma UrlBegins(buf: seq<byte>, isConnect: bool)
    ensures UrlAt(buf, isConnect, 0, if isConnect then ReqServerStart else ReqSpacesBeforeUrl, None, false, map[])
  {}

  /** What the next byte is written to. */
  lemma UrlTurn(buf: seq<byte>, isConnect: bool, p: nat, s: State, last: Option<UrlField>, foundAt: bool, fields: Fields)
    requires UrlAt(buf, isConnect, p, s, last, foundAt, fields) && p < |buf|
    ensures var s1, c := ParseUrlChar(s, buf[p]), ScanTo(buf, isConnect, p);
      && c == Scan(c.s, last, foundAt, c.fields) && fields == Shortened(c.fields) && s1 == ParseUrlChar(c.s, buf[p])
      && (FieldOf(s1).Some? && last == FieldOf(s1) ==> FieldOf(s1).value in c.fields)
      && (s1 == Dead ==> ScanTo(buf, isConnect, |buf|).s == Dead)
  {
    hide ParseUrlChar, FieldOf, ScanTo, ScanByte, Shortened;
    ScanTurn(buf, isConnect, p);
    if ParseUrlChar(s, buf[p]) == Dead {
      DeadForGood(buf, isConnect, p + 1, |buf|);
    }
  }

  lemma UrlTaken(buf: seq<byte>, isConnect: bool, p: nat, s: State, last: Option<UrlField>, foundAt: bool, fields: Fields)
    requires p < |buf| && s != Dead && ScanTo(buf, isConnect, p).s != Dead
    requires var c1 := ScanByte(ScanTo(buf, isConnect, p), buf[p], p);
      c1 == Scan(s, last, foundAt, c1.fields) && fields == Shortened(c1.fields)
    ensures UrlAt(buf, isConnect, p + 1, s, last, foundAt, fields)
  {
    hide ScanTo, ScanByte, Shortened;
    ScanOne(buf, isConnect, p);
  }

  /** The split by what the first pass found. */
  lemma SplitParts(buf: seq<byte>, isConnect: bool)
    requires buf != [] && ScanTo(buf, isConnect, |buf|).s != Dead
    ensures var c := ScanTo(buf, isConnect, |buf|);
      && ScanOk(buf, c, |buf|)
      && if UfHost !in c.fields then
           Split(buf, isConnect) == if UfSchema in c.fields || isConnect then None else Some(Parts(c.fields, 0))
         else
           var host := c.fields[UfHost];
           && host.off + host.len <= |buf|
           && var p := SplitHost(buf, c, host.off, host.off + host.len);
              Split(buf, isConnect) == if p.Some? && isConnect && p.value.fields.Keys != {UfHost, UfPort} then None else p
  {
    hide ScanTo, ScanOk, SplitHost;
    ScanTiles(buf, isConnect, |buf|);
    if UfHost in ScanTo(buf, isConnect, |buf|).fields {
      HostBounds(buf, isConnect);
    }
  }

  /** The host as the first pass finds it, if it finds one, ends where a `uint16_t` can tell. */
  predicate HostFits(c: Scan) {
    UfHost in c.fields ==> c.fields[UfHost].off + c.fields[UfHost].len <= 0xffff
  }

  // ---- The split in 16 bits --------------------------------------------------------------------

  /** A port as the loop over its bytes computes it in an `unsigned long`, which refuses it beyond 16 bits. */
  function PortTold(ds: seq<byte>): (v: Option<nat>)
    ensures v.Some? ==> v.value <= 0xffff
  {
    if ds == [] then Some(0)
    else
      match PortTold(ds[..|ds| - 1])
      case None => None
      case Some(v) =>
        var v1 := (v * 10 + ds[|ds| - 1] - 48) % 0x1_0000_0000_0000_0000;
        if v1 > 0xffff then None else Some(v1)
  }

  /** Of digits that is their decimal value. */
  lemma {:induction false} PortToldExact(ds: seq<byte>)
    requires Digits(ds)
    ensures PortTold(ds) == if Decimal(ds) > 0xffff then None else Some(Decimal(ds))
  {
    if ds != [] {
      PortToldExact(ds[..|ds| - 1]);
    }
  }

  lemma {:induction false} PortStaysRefused(ds: seq<byte>, i: nat)
    requires i <= |ds| && PortTold(ds[..i]).None?
    ensures PortTold(ds).None?
    decreases |ds|
  {
    if i < |ds| {
      assert ds[..|ds| - 1][..i] == ds[..i];
      PortStaysRefused(ds[..|ds| - 1], i);
    } else {
      assert ds[..i] == ds;
    }
  }

  lemma PortNext(ds: seq<byte>, i: nat)
    requires i < |ds|
    ensures PortTold(ds[..i + 1]) == match PortTold(ds[..i])
      case None => None
      case Some(v) =>
        var v1 := (v * 10 + ds[i] - 48) % 0x1_0000_0000_0000_0000; if v1 > 0xffff then None else Some(v1)
  {
    assert ds[..i + 1][..i] == ds[..i];
  }

  /** What the first pass can leave, as a `uint16_t` can hold it. */
  predicate PassLeft(buf: seq<byte>, fs: Fields) {
    && UfPort !in fs && UfUserinfo !in fs
    && (UfHost in fs ==> fs[UfHost].off <= 0xffff && fs[UfHost].off + fs[UfHost].len <= |buf|)
  }

  lemma LeftByPass(buf: seq<byte>, isConnect: bool)
    requires ScanTo(buf, isConnect, |buf|).s != Dead
    ensures PassLeft(buf, Shortened(ScanTo(buf, isConnect, |buf|).fields))
  {
    hide ScanTo, Tiled;
    ScanTiles(buf, isConnect, |buf|);
    PassOnly(buf, ScanTo(buf, isConnect, |buf|));
    if UfHost in ScanTo(buf, isConnect, |buf|).fields {
      HostBounds(buf, isConnect);
    }
  }

  /** The fields behind the second pass, if that accepts the host that the first one has left. */
  function ShortFields(buf: seq<byte>, foundAt: bool, fs: Fields): Option<Fields>
    requires PassLeft(buf, fs) && UfHost in fs
  {
    var h := HostTo(buf, foundAt, fs[UfHost].off, fs[UfHost].off + fs[UfHost].len);
    if HostComplete(h.s) then Some(fs + Shortened(h.fields)) else None
  }

  lemma ShortPortBounds(buf: seq<byte>, foundAt: bool, fs: Fields)
    requires PassLeft(buf, fs) && UfHost in fs
    ensures var all := ShortFields(buf, foundAt, fs);
      all.Some? && UfPort in all.value ==> all.value[UfPort].off + all.value[UfPort].len <= |buf|
  {
    hide HostTo, Tiled, Decimal;
    var lo, hi := fs[UfHost].off, fs[UfHost].off + fs[UfHost].len;
    var h := HostTo(buf, foundAt, lo, hi);
    if HostComplete(h.s) && UfPort in h.fields {
      CompleteLevel(h.s);
      PortBounds(buf, foundAt, lo, hi);
    }
  }

  function ShortHost(buf: seq<byte>, isConnect: bool, foundAt: bool, fs: Fields): Option<Parts>
    requires PassLeft(buf, fs) && UfHost in fs
  {
    ShortPortBounds(buf, foundAt, fs);
    match ShortFields(buf, foundAt, fs)
    case None => None
    case Some(all) =>
      if isConnect && all.Keys != {UfHost, UfPort} then None
      else if UfPort !in all then Some(Parts(all, 0))
      else
        match PortTold(SliceOf(buf, all[UfPort])) case None => None case Some(v) => Some(Parts(all, v))
  }

  /** What `http_parser_parse_url` makes of any URL in the 16 bits of its offsets and lengths. */
  function ShortSplit(buf: seq<byte>, isConnect: bool): Option<Parts> {
    var c := ScanTo(buf, isConnect, |buf|);
    if buf == [] || c.s == Dead then None
    else
      LeftByPass(buf, isConnect);
      var fs := Shortened(c.fields);
      if UfHost in fs then ShortHost(buf, isConnect, c.foundAt, fs)
      else if UfSchema in fs || isConnect then None
      else Some(Parts(fs, 0))
  }

  /**
    With an authority that ends within the range of 16 bits that is the split in full, the fields being
    told as far as 16 bits hold them.
  */
  lemma ShortSplitExact(buf: seq<byte>, isConnect: bool)
    requires HostFits(ScanTo(buf, isConnect, |buf|))
    ensures ShortSplit(buf, isConnect) == match Split(buf, isConnect)
      case None => None
      case Some(p) => Some(Parts(Shortened(p.fields), p.port))
  {
    hide ScanTo, ScanOk, SplitHost, Shortened, HostFits, ShortHost, PassLeft;
    NoSplit(buf, isConnect);
    var c := ScanTo(buf, isConnect, |buf|);
    if buf != [] && c.s != Dead {
      SplitParts(buf, isConnect);
      LeftByPass(buf, isConnect);
      if UfHost in c.fields {
        ShortHostExact(buf, isConnect, c);
      }
    }
  }

  lemma ShortFits16(buf: seq<byte>, isConnect: bool)
    requires |buf| <= 0xffff
    ensures ShortSplit(buf, isConnect) == Split(buf, isConnect)
    ensures Split(buf, isConnect).Some? ==> Partition(buf, isConnect, Split(buf, isConnect).value)
  {
    hide ScanTo, Split, Shortened, Partition, ShortHost, PassLeft, HostFits;
    NoSplit(buf, isConnect);
    if buf != [] && ScanTo(buf, isConnect, |buf|).s != Dead {
      ShortUrl(buf, isConnect);
      ShortSplitExact(buf, isConnect);
    }
  }

  lemma ShortHostExact(buf: seq<byte>, isConnect: bool, c: Scan)
    requires HostFits(c) && UfHost in c.fields && c.fields[UfHost].off + c.fields[UfHost].len <= |buf|
    requires PassLeft(buf, Shortened(c.fields))
    ensures var p := SplitHost(buf, c, c.fields[UfHost].off, c.fields[UfHost].off + c.fields[UfHost].len);
      ShortHost(buf, isConnect, c.foundAt, Shortened(c.fields))
        == if p.None? || (isConnect && p.value.fields.Keys != {UfHost, UfPort}) then None
           else Some(Parts(Shortened(p.value.fields), p.value.port))
  {
    hide HostTo, Shortened, Decimal, PortTold, SliceOf, Digits, Tiled, ShortFields, PassLeft, HostFits, HostComplete;
    var lo, hi := c.fields[UfHost].off, c.fields[UfHost].off + c.fields[UfHost].len;
    var h := HostTo(buf, c.foundAt, lo, hi);
    ShortPortBounds(buf, c.foundAt, Shortened(c.fields));
    ShortFieldsExact(buf, c);
    if HostComplete(h.s) && UfPort in h.fields {
      ShortPortExact(buf, c);
    }
  }

  lemma ShortFieldsExact(buf: seq<byte>, c: Scan)
    requires HostFits(c) && UfHost in c.fields && c.fields[UfHost].off + c.fields[UfHost].len <= |buf|
    requires PassLeft(buf, Shortened(c.fields))
    ensures var h := HostTo(buf, c.foundAt, c.fields[UfHost].off, c.fields[UfHost].off + c.fields[UfHost].len);
      && ShortFields(buf, c.foundAt, Shortened(c.fields))
        == (if HostComplete(h.s) then Some(Shortened(c.fields + h.fields)) else None)
      && (UfPort in c.fields + h.fields <==> UfPort in h.fields)
  {
    hide HostTo, Shortened, HostFits, HostComplete;
    FitsExact(buf, c);
    ShortenedSum(c.fields, HostTo(buf, c.foundAt, c.fields[UfHost].off, c.fields[UfHost].off + c.fields[UfHost].len).fields);
  }

  /** The port is read where it is. */
  lemma ShortPortExact(buf: seq<byte>, c: Scan)
    requires HostFits(c) && UfHost in c.fields && c.fields[UfHost].off + c.fields[UfHost].len <= |buf|
    requires var h := HostTo(buf, c.foundAt, c.fields[UfHost].off, c.fields[UfHost].off + c.fields[UfHost].len);
      HostComplete(h.s) && UfPort in h.fields
    ensures var h := HostTo(buf, c.foundAt, c.fields[UfHost].off, c.fields[UfHost].off + c.fields[UfHost].len);
      var x := h.fields[UfPort];
      && Shortened(c.fields + h.fields)[UfPort] == x && x.off + x.len <= |buf| && Digits(SliceOf(buf, x))
      && PortTold(SliceOf(buf, x)) == if Decimal(SliceOf(buf, x)) > 0xffff then None else Some(Decimal(SliceOf(buf, x)))
  {
    hide HostTo, Decimal, PortTold, SliceOf, Digits, HostFits;
    var lo, hi := c.fields[UfHost].off, c.fields[UfHost].off + c.fields[UfHost].len;
    var h := HostTo(buf, c.foundAt, lo, hi);
    FitsExact(buf, c);
    CompleteLevel(h.s);
    PortBounds(buf, c.foundAt, lo, hi);
    PortToldExact(SliceOf(buf, h.fields[UfPort]));
  }

  /** `struct http_parser_url`. */
  class HttpParserUrl {
    var fields: Fields
    var port: nat

    /** `http_parser_url_init`. */
    constructor ()
      ensures fields == map[] && port == 0
    {
      fields, port := map[], 0;
    }

    method CountUp(f: UrlField)
      requires f in fields
      modifies this`fields
      ensures fields == old(fields)[f := Span(old(fields)[f].off, Short(old(fields)[f].len + 1))]
    {
      fields := fields[f := Span(fields[f].off, Short(fields[f].len + 1))];
    }

    method Restart(f: UrlField, off: nat, len: nat)
      modifies this`fields
      ensures fields == old(fields)[f := Span(Short(off), len)]
    {
      fields := fields[f := Span(Short(off), len)];
    }

    /** The field starts at `p`, its length as given, unless it goes on; then its length is counted up. */
    method TakeInto(f: UrlField, again: bool, p: nat, len: nat)
      requires again ==> f in fields
      modifies this`fields
      ensures fields == old(fields)[f :=
        if again then Span(old(fields)[f].off, Short(old(fields)[f].len + 1)) else Span(Short(p), Short(len + 1))]
    {
      if !again {
        Restart(f, p, len);
      }
      CountUp(f);
    }

    /** The field of the byte at `p`, which led from `s` to `s1`. */
    method WriteField(s: HostState, s1: HostState, p: nat)
      requires UfHost in fields && (s == InPort ==> UfPort in fields) && (s == InUserinfo ==> UfUserinfo in fields)
      modifies this`fields
      ensures fields == Written(old(fields), s, s1, p)
    {
      hide Short;
      var f := WrittenField(s1);
      match s1 {
        case InHost | V6 => TakeInto(f, s == s1, p, fields[f].len);
        case V6ZoneStart | V6Zone => TakeInto(f, true, p, 0);
        case InPort | InUserinfo => TakeInto(f, s == s1, p, 0);
        case _ =>
      }
    }

    /** `http_parse_host`: the host field is narrowed, userinfo and port are set. */
    method ParseHost(buf: seq<byte>, foundAt: bool) returns (bad: bool)
      requires UfHost in fields && fields[UfHost].off <= 0xffff && fields[UfHost].off + fields[UfHost].len <= |buf|
      requires UfPort !in fields && UfUserinfo !in fields
      modifies this`fields
      ensures var host := old(fields)[UfHost];
        var h := HostTo(buf, foundAt, host.off, host.off + host.len);
        bad == !HostComplete(h.s) && (!bad ==> fields == old(fields) + Shortened(h.fields))
    {
      hide HostChar, HostTo, HostAt, Written, HostComplete;
      var lo, hi := fields[UfHost].off, fields[UfHost].off + fields[UfHost].len;
      ghost var others := fields;
      HostBegins(buf, foundAt, lo, others);
      fields := fields[UfHost := Span(lo, 0)];
      var s := if foundAt then UserinfoStart else HostStart;
      var p := lo;
      while p < hi
        invariant lo <= p <= hi && HostAt(buf, foundAt, lo, p, s, fields, others)
      {
        var newS := HostChar(s, buf[p]);
        if newS == HostDead {
          HostDies(buf, foundAt, lo, p, s, fields, others, hi);
          return true;
        }
        HostTurn(buf, foundAt, lo, p, s, fields, others);
        WriteField(s, newS, p);
        s := newS;
        p := p + 1;
      }
      HostEnds(buf, foundAt, lo, p, s, fields, others);
      HostStates(s);
      bad := s == HostStart || s == V6Start || s == V6 || s == V6ZoneStart || s == V6Zone || s == PortStart
        || s == InUserinfo || s == UserinfoStart;
    }

    /**
      `http_parser_parse_url`; offsets and lengths are `uint16_t`, and any URL is split as they say. With
      an authority that ends within their range it is accepted as the specification in full has it, with
      the same port and with the fields as far as they can be held; for a URL that is not longer than
      that they are the whole partition.
    */
    method ParseUrl(buf: seq<byte>, isConnect: bool) returns (bad: bool)
      modifies this
      ensures bad == ShortSplit(buf, isConnect).None?
      ensures !bad ==> Some(Parts(fields, port)) == ShortSplit(buf, isConnect)
      ensures HostFits(ScanTo(buf, isConnect, |buf|)) ==>
        && bad == Split(buf, isConnect).None?
        && (!bad ==> fields == Shortened(Split(buf, isConnect).value.fields) && port == Split(buf, isConnect).value.port)
      ensures |buf| <= 0xffff ==>
        && bad == Split(buf, isConnect).None?
        && (!bad ==> Some(Parts(fields, port)) == Split(buf, isConnect) && Partition(buf, isConnect, Parts(fields, port)))
    {
      hide ParseUrlChar, ScanByte, ScanTo, Split, Partition, Shortened, HostFits, FieldOf, ShortHost, PassLeft;
      if HostFits(ScanTo(buf, isConnect, |buf|)) {
        ShortSplitExact(buf, isConnect);
      }
      if |buf| <= 0xffff {
        ShortFits16(buf, isConnect);
      }
      if buf == [] {
        return true;
      }
      port, fields := 0, map[];
      var s := if isConnect then ReqServerStart else ReqSpacesBeforeUrl;
      var oldUf: Option<UrlField> := None;
      var foundAt := false;
      var p := 0;
      UrlBegins(buf, isConnect);
      while p < |buf|
        invariant p <= |buf| && port == 0 && UrlAt(buf, isConnect, p, s, oldUf, foundAt, fields)
      {
        UrlTurn(buf, isConnect, p, s, oldUf, foundAt, fields);
        s := ParseUrlChar(s, buf[p]);
        if s == Dead {
          return true;
        }
        foundAt, oldUf := TakeByte(s, p, foundAt, oldUf, ScanTo(buf, isConnect, p), buf[p]);
        UrlTaken(buf, isConnect, p, s, oldUf, foundAt, fields);
        p := p + 1;
      }
      LeftByPass(buf, isConnect);
      bad := ParseParts(buf, isConnect, foundAt);
    }

    /** The field of the byte at `p`, which led to state `s`. */
    method TakeByte(s: State, p: nat, foundAt: bool, oldUf: Option<UrlField>, ghost c: Scan, ghost ch: byte)
      returns (foundAt1: bool, uf: Option<UrlField>)
      requires c == Scan(c.s, oldUf, foundAt, c.fields) && fields == Shortened(c.fields) && s == ParseUrlChar(c.s, ch)
      requires FieldOf(s).Some? && oldUf == FieldOf(s) ==> FieldOf(s).value in c.fields
      modifies this`fields
      ensures var c1 := ScanByte(c, ch, p); c1 == Scan(s, uf, foundAt1, c1.fields) && fields == Shortened(c1.fields)
    {
      AtHasField();
      hide ParseUrlChar, FieldOf, Shortened, Short;
      foundAt1, uf := foundAt || s == ReqServerWithAt, oldUf;
      var f := FieldOf(s);
      if f.None? {
        return;
      }
      ShortFits(c.fields, f.value, p);
      if f == oldUf {
        ghost var x := c.fields[f.value];
        ShortenedUpdate(c.fields, f.value, Span(x.off, x.len + 1));
        CountUp(f.value);
        return;
      }
      ShortenedUpdate(c.fields, f.value, Span(p, 1));
      Restart(f.value, p, 1);
      uf := f;
    }

    /** What is left to do behind the first pass: host, CONNECT and port. */
    method ParseParts(buf: seq<byte>, isConnect: bool, foundAt: bool) returns (bad: bool)
      requires PassLeft(buf, fields) && port == 0
      modifies this
      ensures (if bad then None else Some(Parts(fields, port)))
        == if UfHost in old(fields) then ShortHost(buf, isConnect, foundAt, old(fields))
           else if UfSchema in old(fields) || isConnect then None else Some(Parts(old(fields), 0))
    {
      hide ShortHost, PassLeft;
      if UfHost !in fields {
        return UfSchema in fields || isConnect;
      }
      bad := ParseAuthority(buf, isConnect, foundAt);
    }

    /** The host, and the port in it. */
    method ParseAuthority(buf: seq<byte>, isConnect: bool, foundAt: bool) returns (bad: bool)
      requires PassLeft(buf, fields) && UfHost in fields && port == 0
      modifies this
      ensures (if bad then None else Some(Parts(fields, port))) == ShortHost(buf, isConnect, foundAt, old(fields))
    {
      hide HostTo, Shortened, PortTold;
      ShortPortBounds(buf, foundAt, fields);
      bad := ParseHost(buf, foundAt);
      if !bad {
        if isConnect && fields.Keys != {UfHost, UfPort} {
          bad := true;
        } else if UfPort in fields {
          bad := ParsePort(buf);
        }
      }
    }

    /**
      The port. Behind offsets that did not fit it may read other bytes than digits, and `unsigned long`
      may wrap around.
    */
    method ParsePort(buf: seq<byte>) returns (bad: bool)
      requires UfPort in fields && fields[UfPort].off + fields[UfPort].len <= |buf|
      modifies this`port
      ensures bad == PortTold(SliceOf(buf, fields[UfPort])).None?
      ensures !bad ==> Some(port) == PortTold(SliceOf(buf, fields[UfPort]))
      ensures Digits(SliceOf(buf, fields[UfPort])) ==>
        && bad == (Decimal(SliceOf(buf, fields[UfPort])) > 0xffff)
        && (!bad ==> port == Decimal(SliceOf(buf, fields[UfPort])))
    {
      var off, len := fields[UfPort].off, fields[UfPort].len;
      ghost var ds := SliceOf(buf, fields[UfPort]);
      assert ds[..0] == [] && PortTold([]) == Some(0) && ds[..len] == ds;
      if Digits(ds) {
        PortToldExact(ds);
      }
      hide Decimal, PortTold;
      var v: nat := 0;
      var p := off;
      while p < off + len
        invariant off <= p <= off + len && PortTold(ds[..p - off]) == Some(v)
      {
        assert ds[p - off] == buf[p];
        PortNext(ds, p - off);
        v := v * 10;
        v := (v + buf[p] - 48) % 0x1_0000_0000_0000_0000;
        p := p + 1;
        if v > 0xffff {
          PortStaysRefused(ds, p - off);
          return true;
        }
      }
      port := v;
      bad := false;
    }
  }
}
