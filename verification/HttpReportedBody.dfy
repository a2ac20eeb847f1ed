/** The way back, fifth part: a chunked body that is reported complete is the wire form of legal chunks and trailers. */
module HttpReportedBody {
  import opened Bytes
  import opened HttpTypes
  import opened HttpStep
  import opened HttpRun
  import opened HttpFeed
  import opened HttpLengths
  import opened HttpHeaders
  import opened HttpHead
  import opened HttpBody
  import opened HttpReported
  import opened HttpReportedLine
  import opened HttpReportedHead

  // ---- The size line ---------------------------------------------------------------------------

  predicate EndsSize(b: byte) {
    Unhex(b) == -1
  }

  /** A run that has not failed had room for the header byte it read last. */
  lemma RoomTaken(q: GoodParser, trace: seq<Event>, n: nat, b: byte)
    requires ParsingHeader(q.state) && Advance(Live(q, trace, n), b) != Failed
    ensures Room(q, 1)
  {
    hide Advance, Good;
    if !Room(q, 1) {
      NoRoom(Live(q, trace, n), b);
    }
  }

  /** As long as size digits are taken there is room for them. */
  lemma {:induction false} DigitsRoom(q: GoodParser, trace: seq<Event>, n: nat, ds: seq<byte>, i: nat)
    requires q.state == ChunkSizeStart && SizeDigits(ds) && i <= |ds| && Upto(Live(q, trace, n), ds, i) != Failed
    ensures Room(q, i)
  {
    hide Advance, Good, HexValue, SizeDigits;
    if i == 0 {
      FreshSize(q);
    } else {
      var start := Live(q, trace, n);
      UptoStep(start, ds, i - 1);
      if Upto(start, ds, i - 1) == Failed {
        AdvanceFailed(ds[i - 1]);
      }
      DigitsRoom(q, trace, n, ds, i - 1);
      if i == 1 {
        assert Upto(start, ds, 0) == start;
      } else {
        SizeDigitsRun(q, trace, n, ds, i - 1);
      }
      var r := Upto(start, ds, i - 1);
      RoomTaken(r.q, r.trace, r.n, ds[i - 1]);
    }
  }

  /** The same for an extension. */
  lemma {:induction false} ExtensionRoom(q: GoodParser, trace: seq<Event>, n: nat, e: seq<byte>, i: nat)
    requires q.state == ChunkSize && 1 <= i <= |e| && (e[0] == 59 || e[0] == SP) && CR !in e
    requires Upto(Live(q, trace, n), e, i) != Failed
    ensures Room(q, i)
  {
    hide Advance, Good;
    var start := Live(q, trace, n);
    UptoStep(start, e, i - 1);
    if i == 1 {
      assert Upto(start, e, 0) == start;
    } else {
      if Upto(start, e, i - 1) == Failed {
        AdvanceFailed(e[i - 1]);
      }
      ExtensionRoom(q, trace, n, e, i - 1);
      ExtensionRun(q, trace, n, e, i - 1);
    }
    var r := Upto(start, e, i - 1);
    RoomTaken(r.q, r.trace, r.n, e[i - 1]);
  }

  lemma DigitsFit(q: GoodParser, trace: seq<Event>, n: nat, ds: seq<byte>)
    requires q.state == ChunkSizeStart && SizeDigits(ds) && Over(Live(q, trace, n), ds) != Failed
    ensures Room(q, |ds|)
  {
    hide Advance, Good, HexValue, SizeDigits;
    DigitsRoom(q, trace, n, ds, |ds|);
  }

  lemma ExtensionFits(q: GoodParser, trace: seq<Event>, n: nat, e: seq<byte>)
    requires q.state == ChunkSize && (e != [] ==> e[0] == 59 || e[0] == SP) && CR !in e && Over(Live(q, trace, n), e) != Failed
    ensures Room(q, |e|)
  {
    hide Advance, Good;
    if e != [] {
      ExtensionRoom(q, trace, n, e, |e|);
    } else {
      RoomNow(q);
    }
  }

  lemma SizeBegins(q: GoodParser, trace: seq<Event>, n: nat, b: byte)
    requires q.state == ChunkSizeStart && Room(q, 1) && Advance(Live(q, trace, n), b) != Failed
    ensures !EndsSize(b)
  {
    hide Arm, Advance, Good, MethodString, Unhex;
    ChunkArmAt(q.(nread := q.nread + 1), b);
    if Unhex(b) == -1 {
      Refuses(q, trace, n, b);
    }
  }

  lemma SizeGoesOn(q: GoodParser, trace: seq<Event>, n: nat, b: byte)
    requires q.state == ChunkSize && Room(q, 1) && EndsSize(b) && Advance(Live(q, trace, n), b) != Failed
    ensures b == CR || b == 59 || b == SP
  {
    hide Arm, Advance, Good, MethodString, Unhex;
    ChunkArmAt(q.(nread := q.nread + 1), b);
    if b != CR && b != 59 && b != SP {
      Refuses(q, trace, n, b);
    }
  }

  /** The digits of a size. */
  lemma SizeFirstly(q: GoodParser, trace: seq<Event>, n: nat, s: seq<byte>, k: nat) returns (ds: seq<byte>)
    requires q.state == ChunkSizeStart && Reports(trace) == k && Reported(Over(Live(q, trace, n), s), k)
    ensures ds != [] && SizeDigits(ds) && HexValue(ds[..|ds| - 1]) <= HEX_LIMIT && Room(q, |ds|)
    ensures HexValue(ds) < ULLONG_MAX && ds < s && (s[|ds|] == CR || s[|ds|] == 59 || s[|ds|] == SP)
    ensures Good(InSize(q, HexValue(ds), |ds|))
    ensures Reported(Over(Live(InSize(q, HexValue(ds), |ds|), trace, n + |ds|), s[|ds|..]), k)
  {
    hide Over, Good, HexValue, Reported, EndsSize, SizeDigits, Advance;
    var start, i := Live(q, trace, n), Find(s, EndsSize);
    Peel(q, trace, n, s, k);
    SizeBegins(q, trace, n, s[0]);
    ds := s[..i];
    DigitsBefore(s, i);
    assert s == ds + s[i..];
    PartTaken(start, ds, s[i..], k);
    DigitsFit(q, trace, n, ds);
    ChunkSizeExact(q, trace, n, ds);
    var q1 := InSize(q, HexValue(ds), i);
    Peel(q1, trace, n + i, s[i..], k);
    SizeGoesOn(q1, trace, n + i, s[i]);
  }

  lemma DigitsBefore(s: seq<byte>, i: nat)
    requires i <= |s| && forall j :: 0 <= j < i ==> !EndsSize(s[j])
    ensures SizeDigits(s[..i])
  {}

  /** A chunk extension, or none. */
  lemma ExtensionFirstly(q: GoodParser, trace: seq<Event>, n: nat, s: seq<byte>, k: nat) returns (e: seq<byte>, q1: GoodParser)
    requires q.state == ChunkSize && Reports(trace) == k && Reported(Over(Live(q, trace, n), s), k)
    requires s != [] && (s[0] == CR || s[0] == 59 || s[0] == SP)
    ensures (e != [] ==> e[0] == 59 || e[0] == SP) && CR !in e && Room(q, |e|) && e < s && s[|e|] == CR
    ensures q1 == q.(state := if e == [] then ChunkSize else ChunkParameters, nread := q.nread + |e|)
    ensures Reported(Over(Live(q1, trace, n + |e|), s[|e|..]), k)
  {
    hide Over, Good, Reported, Advance;
    var start, i := Live(q, trace, n), Find(s, (b: byte) => b == CR);
    e := s[..i];
    assert s == e + s[i..];
    PartTaken(start, e, s[i..], k);
    ExtensionFits(q, trace, n, e);
    ExtensionsOver(q, trace, n, e);
    q1 := q.(state := if e == [] then ChunkSize else ChunkParameters, nread := q.nread + |e|);
    Peel(q1, trace, n + i, s[i..], k);
  }

  /** The end of a size line. */
  lemma SizeLineCloses(q: GoodParser, trace: seq<Event>, n: nat, s: seq<byte>, k: nat)
    requires (q.state == ChunkSize || q.state == ChunkParameters) && Reports(trace) == k && Reported(Over(Live(q, trace, n), s), k)
    requires s != [] && s[0] == CR
    ensures [CR, LF] <= s && Room(q, 2)
  {
    hide Arm, Advance, Good, MethodString, Reported;
    Peel(q, trace, n, s, k);
    var q0, q1 := q.(nread := q.nread + 1), q.(nread := q.nread + 1, state := ChunkSizeAlmostDone);
    ChunkArmAt(q0, CR);
    TakesQuietly(q, trace, n, CR, q1);
    Peel(q1, trace, n + 1, s[1..], k);
    ChunkArmAt(q1.(nread := q1.nread + 1), s[1]);
    if s[1] != LF {
      Refuses(q1, trace, n + 1, s[1]);
    }
  }

  /** A size line, with some data of the length that it gives. */
  lemma LineFirstly(q: GoodParser, trace: seq<Event>, n: nat, s: seq<byte>, k: nat) returns (c: Chunk)
    requires q.state == ChunkSizeStart && Reports(trace) == k && Reported(Over(Live(q, trace, n), s), k)
    ensures LegalSize(c) && SizeLine(c) <= s
  {
    hide Good, HexValue, Reported, SizeDigits, Over, LegalSize, SizeLine;
    var size := SizeFirstly(q, trace, n, s, k);
    var i, v := |size|, HexValue(size);
    var e, q2 := ExtensionFirstly(InSize(q, v, i), trace, n + i, s[i..], k);
    var j := i + |e|;
    assert s[i..][|e|..] == s[j..];
    SizeLineCloses(q2, trace, n + j, s[j..], k);
    FreshSize(q);
    c := Chunk(size, e, seq(v, _ => 0));
    SizePut(c, s);
  }

  lemma SizePut(c: Chunk, s: seq<byte>)
    requires c.size != [] && SizeDigits(c.size) && HexValue(c.size[..|c.size| - 1]) <= HEX_LIMIT && HexValue(c.size) == |c.data|
    requires (c.extensions != [] ==> c.extensions[0] == 59 || c.extensions[0] == SP) && CR !in c.extensions
    requires c.size <= s && c.extensions <= s[|c.size|..] && |c.size| + |c.extensions| + 2 <= MAX_HEADER_SIZE
    requires [CR, LF] <= s[|c.size|..][|c.extensions|..]
    ensures LegalSize(c) && SizeLine(c) <= s
  {
    hide HexValue, SizeDigits;
    PrefixThen(c.size, c.extensions, s);
    PrefixThen(c.size + c.extensions, [CR, LF], s);
  }

  // ---- Chunks ----------------------------------------------------------------------------------

  /** The data of a chunk are all there, with a line end behind them. */
  lemma DataFirstly(q: GoodParser, trace: seq<Event>, n: nat, s: seq<byte>, k: nat)
    requires q.state == ChunkData && Reports(trace) == k && Reported(Over(Live(q, trace, n), s), k)
    ensures |s| >= q.contentLength + 2 && s[q.contentLength..q.contentLength + 2] == [CR, LF]
  {
    hide Over, Advance, Good, Reported, Emit;
    var v := q.contentLength;
    var i := if |s| < v then |s| else v;
    var d, rest := s[..i], s[i..];
    assert s == d + rest;
    PartTaken(Live(q, trace, n), d, rest, k);
    var q1, t1 := DataOver(q, trace, n, d);
    Peel(q1, t1, n + i, rest, k);
    ChunkCloses(q1, t1, n + i, rest, k);
  }

  /** Data of a chunk, or a part of them. */
  lemma DataOver(q: GoodParser, trace: seq<Event>, n: nat, d: seq<byte>) returns (q1: GoodParser, t1: seq<Event>)
    requires q.state == ChunkData && |d| <= q.contentLength
    ensures Reports(t1) == Reports(trace) && Over(Live(q, trace, n), d) == Live(q1, t1, n + |d|)
    ensures |d| == q.contentLength ==> q1.state == ChunkDataAlmostDone
  {
    hide Advance, Good, Emit, Reports;
    BodyRun(q, trace, n, d, |d|);
    assert d[..|d|] == d;
    ReportsEmit(trace, Data(Body, d));
    q1, t1 := InBody(q, |d|), BodyTrace(trace, d);
  }

  lemma ChunkCloses(q: GoodParser, trace: seq<Event>, n: nat, s: seq<byte>, k: nat)
    requires q.state == ChunkDataAlmostDone && Reports(trace) == k && Reported(Over(Live(q, trace, n), s), k)
    ensures [CR, LF] <= s
  {
    hide Arm, Advance, Good, MethodString, Reported, EmitAll;
    Peel(q, trace, n, s, k);
    ChunkArmAt(q, s[0]);
    if s[0] != CR {
      RefusesUncounted(q, trace, n, s[0]);
    }
    var q1 := q.(state := ChunkDataDone);
    TakesUncounted(q, trace, n, CR, q1, FlushIfSet(Body), []);
    EmitAllNone(trace);
    assert OwnData(FlushIfSet(Body), CR) + [] == [];
    Peel(q1, trace, n + 1, s[1..], k);
    ChunkArmAt(q1, s[1]);
    if s[1] != LF {
      RefusesUncounted(q1, trace, n + 1, s[1]);
    }
  }

  lemma RefusesUncounted(q: GoodParser, trace: seq<Event>, n: nat, ch: byte)
    requires !ParsingHeader(q.state) && (BodyState(q.state) ==> q.contentLength > 0) && Arm(q, ch).Bad?
    ensures Advance(Live(q, trace, n), ch) == Failed
  {
    hide Arm, EmitAll, MethodString;
  }

  lemma {:induction false} ChunksCons(c: Chunk, cs: seq<Chunk>)
    ensures ChunksWire([c] + cs) == ChunkWire(c) + ChunksWire(cs)
  {
    hide ChunkWire;
    if cs == [] {
      assert [c][..0] == [] && [c] + cs == [c];
      assert ChunkWire(c) + [] == ChunkWire(c) == [] + ChunkWire(c);
    } else {
      var before, last := cs[..|cs| - 1], cs[|cs| - 1];
      ChunksCons(c, before);
      assert ([c] + cs)[..|cs|] == [c] + before;
      assert ChunkWire(c) + ChunksWire(before) + ChunkWire(last) == ChunkWire(c) + (ChunksWire(before) + ChunkWire(last));
    }
  }

  /** A chunk with its data. */
  lemma WholeChunk(q: GoodParser, trace: seq<Event>, n: nat, s: seq<byte>, c: Chunk, k: nat) returns (c1: Chunk, t1: seq<Event>)
    requires q.state == ChunkSizeStart && Reports(trace) == k && Reported(Over(Live(q, trace, n), s), k)
    requires LegalSize(c) && SizeLine(c) <= s && c.data != []
    ensures LegalSize(c1) && c1.data != [] && ChunkWire(c1) <= s && Reports(t1) == k
    ensures Good(q.(contentLength := 0))
    ensures Reported(Over(Live(q.(contentLength := 0), t1, n + |ChunkWire(c1)|), s[|ChunkWire(c1)|..]), k)
  {
    hide Good, HexValue, Reported, SizeDigits, Over, SizeLine, Emit;
    var w, v := SizeLine(c), |c.data|;
    var rest := s[|w|..];
    assert s == w + rest;
    PartTaken(Live(q, trace, n), w, rest, k);
    SizeLineRead(q, trace, n, c);
    ReportsEmit(trace, ChunkHeader(v));
    DataFirstly(BehindSize(q, v), Emit(trace, ChunkHeader(v)), n + |w|, rest, k);
    c1 := c.(data := rest[..v]);
    assert rest == c1.data + [CR, LF] + rest[v + 2..];
    SameLine(c, c1);
    assert s == ChunkWire(c1) + rest[v + 2..];
    t1 := ChunkTrace(trace, c1.data);
    ReportsEmit(Emit(trace, ChunkHeader(v)), Data(Body, c1.data));
    ReportsEmit(Emit(Emit(trace, ChunkHeader(v)), Data(Body, c1.data)), ChunkComplete);
    PartTaken(Live(q, trace, n), ChunkWire(c1), rest[v + 2..], k);
    ChunkRead(q, trace, n, c1);
    assert s[|ChunkWire(c1)|..] == rest[v + 2..];
  }

  lemma SameLine(c: Chunk, c1: Chunk)
    requires c1.size == c.size && c1.extensions == c.extensions
    ensures SizeLine(c1) == SizeLine(c)
  {}

  /** Chunks up to the last size line. */
  predicate ChunksUpTo(cs: seq<Chunk>, last: Chunk, s: seq<byte>) {
    LegalChunks(cs) && LegalSize(last) && last.data == [] && ChunksWire(cs) + SizeLine(last) <= s
  }

  lemma {:induction false} ChunksFirst(q: GoodParser, trace: seq<Event>, n: nat, s: seq<byte>, k: nat) returns (cs: seq<Chunk>, last: Chunk)
    requires q.state == ChunkSizeStart && Reports(trace) == k && Reported(Over(Live(q, trace, n), s), k)
    ensures ChunksUpTo(cs, last, s)
    decreases |s|
  {
    hide Good, Reported, Over, LegalSize, SizeLine, ChunkWire, ChunksUpTo;
    var c := LineFirstly(q, trace, n, s, k);
    if c.data == [] {
      cs, last := [], c;
      NoChunks(c, s);
    } else {
      var c1, t1 := WholeChunk(q, trace, n, s, c, k);
      var w := ChunkWire(c1);
      WireSome(c1);
      var more;
      more, last := ChunksFirst(q.(contentLength := 0), t1, n + |w|, s[|w|..], k);
      cs := [c1] + more;
      OneChunkMore(c1, more, last, s);
    }
  }

  lemma WireSome(c: Chunk)
    ensures |ChunkWire(c)| > 0
  {}

  lemma NoChunks(last: Chunk, s: seq<byte>)
    requires LegalSize(last) && last.data == [] && SizeLine(last) <= s
    ensures ChunksUpTo([], last, s)
  {
    hide LegalSize, SizeLine;
    assert [] + SizeLine(last) == SizeLine(last);
  }

  lemma OneChunkMore(c: Chunk, more: seq<Chunk>, last: Chunk, s: seq<byte>)
    requires LegalSize(c) && c.data != [] && ChunkWire(c) <= s && ChunksUpTo(more, last, s[|ChunkWire(c)|..])
    ensures ChunksUpTo([c] + more, last, s)
  {
    hide LegalSize, SizeLine, ChunkWire;
    ChunksCons(c, more);
    var w, a := ChunkWire(c), ChunksWire(more) + SizeLine(last);
    var rest := s[|w|..];
    assert s == w + rest && rest == a + rest[|a|..];
    assert s == ChunksWire([c] + more) + SizeLine(last) + rest[|a|..];
    assert forall i :: 1 <= i <= |more| ==> ([c] + more)[i] == more[i - 1];
  }

  // ---- The whole body --------------------------------------------------------------------------

  /** A legal chunked body at the beginning of the input. */
  predicate BodyUpTo(cs: seq<Chunk>, last: Chunk, trailers: seq<Header>, bare: bool, s: seq<byte>) {
    && LegalChunks(cs) && LegalSize(last) && last.data == [] && LegalTrailers(trailers, bare)
    && ChunkedWire(cs, last, trailers, bare) <= s
  }

  lemma LastLine(q: GoodParser, trace: seq<Event>, n: nat, s: seq<byte>, cs: seq<Chunk>, last: Chunk, k: nat)
      returns (q1: GoodParser, t1: seq<Event>)
    requires q.state == ChunkSizeStart && Reports(trace) == k && Reported(Over(Live(q, trace, n), s), k) && ChunksUpTo(cs, last, s)
    ensures q1.state == HeaderFieldStart && q1.nread == 0 && q1.flags == q.flags.(trailing := true) && Reports(t1) == k
    ensures var w := ChunksWire(cs) + SizeLine(last); Reported(Over(Live(q1, t1, n + |w|), s[|w|..]), k)
  {
    hide Good, Reported, Over, LegalSize, SizeLine, ChunksWire, LegalChunks, Emit, ChunksTrace;
    var a, b := ChunksWire(cs), SizeLine(last);
    var rest := s[|a + b|..];
    assert s == a + b + rest;
    PartTaken(Live(q, trace, n), a + b, rest, k);
    OverAppend(Live(q, trace, n), a, b);
    ChunksRead(q, trace, n, cs);
    var r := Over(Live(q, trace, n), a);
    SizeLineRead(r.q, r.trace, r.n, last);
    ChunksTell(trace, cs);
    ReportsEmit(r.trace, ChunkHeader(0));
    q1, t1 := BehindSize(r.q, 0), Emit(r.trace, ChunkHeader(0));
  }

  lemma {:induction false} ChunksTell(trace: seq<Event>, cs: seq<Chunk>)
    ensures Reports(ChunksTrace(trace, cs)) == Reports(trace)
  {
    hide Emit, Reports;
    if cs != [] {
      var t, d := ChunksTrace(trace, cs[..|cs| - 1]), cs[|cs| - 1].data;
      ChunksTell(trace, cs[..|cs| - 1]);
      ReportsEmit(t, ChunkHeader(|d|));
      ReportsEmit(Emit(t, ChunkHeader(|d|)), Data(Body, d));
      ReportsEmit(Emit(Emit(t, ChunkHeader(|d|)), Data(Body, d)), ChunkComplete);
    }
  }

  /** Whatever chunked body is reported complete is the wire form of a legal one. */
  lemma ChunkedFirst(q: GoodParser, trace: seq<Event>, n: nat, s: seq<byte>, k: nat)
      returns (cs: seq<Chunk>, last: Chunk, trailers: seq<Header>, bare: bool)
    requires q.state == ChunkSizeStart && !q.flags.contentLength && Reports(trace) == k && Reported(Over(Live(q, trace, n), s), k)
    ensures BodyUpTo(cs, last, trailers, bare, s)
  {
    hide Good, Reported, Over, LegalSize, SizeLine, ChunksWire, LegalChunks, Ending, Lines, AllAcceptable;
    cs, last := ChunksFirst(q, trace, n, s, k);
    var q1, t1 := LastLine(q, trace, n, s, cs, last, k);
    var w := ChunksWire(cs) + SizeLine(last);
    trailers, bare := TrailersFirst(q1, t1, n + |w|, s[|w|..], k);
    PrefixThen(w, Lines(trailers) + Ending(bare), s);
    assert ChunkedWire(cs, last, trailers, bare) == w + (Lines(trailers) + Ending(bare));
  }

  lemma TrailersFirst(q: GoodParser, trace: seq<Event>, n: nat, s: seq<byte>, k: nat) returns (trailers: seq<Header>, bare: bool)
    requires q.state == HeaderFieldStart && q.nread == 0 && !q.flags.contentLength
    requires Reports(trace) == k && Reported(Over(Live(q, trace, n), s), k)
    ensures LegalTrailers(trailers, bare) && Lines(trailers) + Ending(bare) <= s
  {
    hide Good, Reported, Over, Ending, Lines, AllAcceptable;
    Fits(q, trace, n, s, k);
    var j :| 0 <= j <= |s| && Room(q, j) && Reported(Over(Live(q, trace, n), s[..j]), k);
    trailers, bare := HeadersFirst(q, trace, n, s[..j], k);
    assert s == s[..j] + s[j..];
  }
}
