/** Content-Length digits and chunk-size digits: the 64-bit arithmetic is exact or the input is rejected. */
module HttpLengths {
  import opened Bytes
  import opened HttpTypes
  import opened HttpStep
  import opened HttpRun
  import opened HttpFeed

  const DECIMAL_LIMIT: nat := (ULLONG_MAX - 10) / 10
  const HEX_LIMIT: nat := (ULLONG_MAX - 16) / 16

  predicate Digits(ds: seq<byte>) {
    forall i :: 0 <= i < |ds| ==> IsNum(ds[i])
  }

  /** The number that decimal digits spell. */
  function Decimal(ds: seq<byte>): nat
    requires Digits(ds)
  {
    if ds == [] then 0 else Decimal(ds[..|ds| - 1]) * 10 + (ds[|ds| - 1] - 48)
  }

  /** The bytes a chunk-size line accepts as digits. */
  predicate SizeDigits(hs: seq<byte>) {
    forall i :: 0 <= i < |hs| ==> Unhex(hs[i]) != -1
  }

  /** The number that such bytes spell to the parser. */
  function HexValue(hs: seq<byte>): nat
    requires SizeDigits(hs)
  {
    if hs == [] then 0 else HexValue(hs[..|hs| - 1]) * 16 + Unhex(hs[|hs| - 1])
  }

  // ---- Content-Length --------------------------------------------------------------------------

  /** Inside the value of a Content-Length header, after digits that spell `v`. */
  function InLength(q: Parser, v: nat, k: nat): Parser {
    q.(state := HeaderValue, headerState := ContentLengthNum, index := 0, contentLength := v,
       flags := q.flags.(contentLength := true), nread := q.nread + k)
  }

  ghost predicate LengthRun(q: Parser, r: Run, trace: seq<Event>, n: nat, ds: seq<byte>, i: nat)
    requires 1 <= i <= |ds| && Digits(ds)
  {
    var q1 := InLength(q, Decimal(ds[..i]), i);
    if Decimal(ds[..i - 1]) <= DECIMAL_LIMIT then
      Good(q1) && q1.contentLength < ULLONG_MAX && r == Live(q1, Emit(trace, Data(Value, ds[..i])), n + i)
    else r == Failed
  }

  lemma LengthFirst(q: GoodParser, trace: seq<Event>, n: nat, ds: seq<byte>)
    requires q.state == HeaderValueDiscardWs && q.headerState == ContentLength && !q.flags.contentLength
    requires Room(q, 1) && ds != [] && Digits(ds)
    ensures LengthRun(q, Advance(Live(q, trace, n), ds[0]), trace, n, ds, 1)
  {
    hide Arm, Advance, Emit, MethodString, AtSwitch;
    assert ds[..1] == [ds[0]] && ds[..0] == [] && ds[..1][..0] == [];
    var q1 := q.(nread := q.nread + 1);
    ValueStartArmAt(q1, ds[0]);
    TakesData(q, trace, n, ds[0], InLength(q, ds[0] - 48, 1), Value);
  }

  /** A digit behind other digits. */
  lemma DigitArmAt(q: Parser, ch: byte)
    requires q.state == HeaderValue && q.headerState == ContentLengthNum && IsNum(ch) && q.contentLength < ULLONG_MAX
    ensures Arm(q, ch) ==
      if q.contentLength <= DECIMAL_LIMIT then Next(q.(contentLength := q.contentLength * 10 + (ch - 48)), Keep(Value), [])
      else Bad(InvalidContentLength)
  {
    hide MatchToken, MethodString;
    ValueArmAt(q, ch);
    assert MatchValue(q, ch) == LengthDigit(q, ch);
    if q.contentLength <= DECIMAL_LIMIT {
      LengthDigitExact(q, ch);
    }
  }

  lemma LengthNext(q: GoodParser, r: Run, trace: seq<Event>, n: nat, ds: seq<byte>, i: nat)
    requires 1 <= i < |ds| && Digits(ds) && Room(q, i + 1) && LengthRun(q, r, trace, n, ds, i)
    ensures LengthRun(q, Advance(r, ds[i]), trace, n, ds, i + 1)
  {
    hide Arm, Advance, Emit, MethodString, Good, Decimal;
    DecimalStep(ds, i);
    DecimalStep(ds, i + 1);
    var v := Decimal(ds[..i]);
    if Decimal(ds[..i - 1]) > DECIMAL_LIMIT {
      AdvanceFailed(ds[i]);
    } else {
      EmitByte(trace, Value, ds, i);
      DigitTaken(q, v, i, Emit(trace, Data(Value, ds[..i])), n + i, ds[i]);
    }
  }

  lemma DecimalStep(ds: seq<byte>, i: nat)
    requires 1 <= i <= |ds| && Digits(ds)
    ensures Decimal(ds[..i]) == Decimal(ds[..i - 1]) * 10 + (ds[i - 1] - 48)
  {
    assert ds[..i][..i - 1] == ds[..i - 1];
  }

  /** One more digit behind the number `v`. */
  lemma DigitTaken(q: Parser, v: nat, i: nat, t: seq<Event>, n: nat, ch: byte)
    requires Good(InLength(q, v, i)) && IsNum(ch) && v < ULLONG_MAX && Room(q, i + 1)
    ensures var q2, r := InLength(q, v * 10 + (ch - 48), i + 1), Advance(Live(InLength(q, v, i), t, n), ch);
      if v <= DECIMAL_LIMIT then Good(q2) && q2.contentLength < ULLONG_MAX && r == Live(q2, Emit(t, Data(Value, [ch])), n + 1)
      else r == Failed
  {
    hide Arm, Advance, Emit, MethodString, Good;
    var q1 := InLength(q, v, i);
    DigitArmAt(q1.(nread := q1.nread + 1), ch);
    if v <= DECIMAL_LIMIT {
      TakesData(q1, t, n, ch, InLength(q, v * 10 + (ch - 48), i + 1), Value);
    } else {
      Refuses(q1, t, n, ch);
    }
  }

  lemma {:induction false} LengthDigitsRun(q: GoodParser, trace: seq<Event>, n: nat, ds: seq<byte>, i: nat)
    requires q.state == HeaderValueDiscardWs && q.headerState == ContentLength && !q.flags.contentLength
    requires 1 <= i <= |ds| && Digits(ds) && Room(q, i)
    ensures LengthRun(q, Upto(Live(q, trace, n), ds, i), trace, n, ds, i)
  {
    hide Advance, LengthRun, Good;
    var start := Live(q, trace, n);
    UptoStep(start, ds, i - 1);
    if i == 1 {
      assert Upto(start, ds, 0) == start;
      LengthFirst(q, trace, n, ds);
    } else {
      LengthDigitsRun(q, trace, n, ds, i - 1);
      LengthNext(q, Upto(start, ds, i - 1), trace, n, ds, i - 1);
    }
  }

  /**
    Content-Length is exact: digits of any length are accepted iff the number without its last digit is
    within the conservative limit, and then `content_length` is their value, below the sentinel.
  */
  lemma ContentLengthExact(q: GoodParser, trace: seq<Event>, n: nat, ds: seq<byte>)
    requires q.state == HeaderValueDiscardWs && q.headerState == ContentLength && !q.flags.contentLength
    requires ds != [] && Digits(ds) && Room(q, |ds|)
    ensures var r := Over(Live(q, trace, n), ds);
      && (r.Live? <==> Decimal(ds[..|ds| - 1]) <= DECIMAL_LIMIT) && (!r.Live? ==> r == Failed)
      && (r.Live? ==>
           && r.q.contentLength == Decimal(ds) < ULLONG_MAX && r.q.flags.contentLength
           && r.q.headerState == ContentLengthNum && r.trace == Emit(trace, Data(Value, ds)))
  {
    hide Advance, Good, Emit;
    LengthDigitsRun(q, trace, n, ds, |ds|);
    assert ds[..|ds|] == ds;
  }

  // ---- Chunk sizes -----------------------------------------------------------------------------

  function InSize(q: Parser, v: nat, k: nat): Parser {
    q.(state := ChunkSize, contentLength := v, nread := q.nread + k)
  }

  ghost predicate SizeRun(q: Parser, r: Run, trace: seq<Event>, n: nat, hs: seq<byte>, i: nat)
    requires 1 <= i <= |hs| && SizeDigits(hs)
  {
    var q1 := InSize(q, HexValue(hs[..i]), i);
    if HexValue(hs[..i - 1]) <= HEX_LIMIT then Good(q1) && q1.contentLength < ULLONG_MAX && r == Live(q1, trace, n + i)
    else r == Failed
  }

  lemma SizeFirst(q: GoodParser, trace: seq<Event>, n: nat, hs: seq<byte>)
    requires q.state == ChunkSizeStart && Room(q, 1) && hs != [] && SizeDigits(hs)
    ensures SizeRun(q, Advance(Live(q, trace, n), hs[0]), trace, n, hs, 1)
  {
    hide Arm, Advance, Emit, MethodString, AtSwitch;
    assert hs[..1] == [hs[0]] && hs[..0] == [] && hs[..1][..0] == [];
    var q1 := q.(nread := q.nread + 1);
    ChunkArmAt(q1, hs[0]);
    TakesQuietly(q, trace, n, hs[0], InSize(q, Unhex(hs[0]), 1));
  }

  lemma SizeNext(q: GoodParser, r: Run, trace: seq<Event>, n: nat, hs: seq<byte>, i: nat)
    requires 1 <= i < |hs| && SizeDigits(hs) && Room(q, i + 1) && SizeRun(q, r, trace, n, hs, i)
    ensures SizeRun(q, Advance(r, hs[i]), trace, n, hs, i + 1)
  {
    hide Arm, Advance, Emit, MethodString, Good;
    PrefixStep(hs, i);
    var v := HexValue(hs[..i]);
    if HexValue(hs[..i - 1]) > HEX_LIMIT {
      AdvanceFailed(hs[i]);
    } else {
      var q1 := InSize(q, v, i);
      var q2 := q1.(nread := q1.nread + 1);
      ChunkArmAt(q2, hs[i]);
      if v <= HEX_LIMIT {
        ChunkDigitExact(q2, hs[i]);
        TakesQuietly(q1, trace, n + i, hs[i], InSize(q, v * 16 + Unhex(hs[i]), i + 1));
      } else {
        Refuses(q1, trace, n + i, hs[i]);
      }
    }
  }

  lemma {:induction false} SizeDigitsRun(q: GoodParser, trace: seq<Event>, n: nat, hs: seq<byte>, i: nat)
    requires q.state == ChunkSizeStart && 1 <= i <= |hs| && SizeDigits(hs) && Room(q, i)
    ensures SizeRun(q, Upto(Live(q, trace, n), hs, i), trace, n, hs, i)
  {
    hide Advance, SizeRun, Good;
    var start := Live(q, trace, n);
    UptoStep(start, hs, i - 1);
    if i == 1 {
      assert Upto(start, hs, 0) == start;
      SizeFirst(q, trace, n, hs);
    } else {
      SizeDigitsRun(q, trace, n, hs, i - 1);
      SizeNext(q, Upto(start, hs, i - 1), trace, n, hs, i - 1);
    }
  }

  /**
    Chunk sizes are exact: digits of any length are accepted iff the number without its last digit is
    within the conservative limit, and then `content_length` is their value, below the sentinel.
  */
  lemma ChunkSizeExact(q: GoodParser, trace: seq<Event>, n: nat, hs: seq<byte>)
    requires q.state == ChunkSizeStart && hs != [] && SizeDigits(hs) && Room(q, |hs|)
    ensures var r := Over(Live(q, trace, n), hs);
      && (r.Live? <==> HexValue(hs[..|hs| - 1]) <= HEX_LIMIT) && (!r.Live? ==> r == Failed)
      && (r.Live? ==> HexValue(hs) < ULLONG_MAX && r.q == InSize(q, HexValue(hs), |hs|) && r.trace == trace && r.n == n + |hs|)
  {
    hide Advance, Good;
    SizeDigitsRun(q, trace, n, hs, |hs|);
    assert hs[..|hs|] == hs;
  }

  /** RFC 7230 section 4.1: chunk-size = 1*HEXDIG. */
  predicate HexDigits(hs: seq<byte>) {
    forall i :: 0 <= i < |hs| ==> IsHex(hs[i])
  }

  function HexDigit(b: byte): nat
    requires IsHex(b)
  {
    if IsNum(b) then b - 48 else Lower(b) - 87
  }

  function Hexadecimal(hs: seq<byte>): nat
    requires HexDigits(hs)
  {
    if hs == [] then 0 else Hexadecimal(hs[..|hs| - 1]) * 16 + HexDigit(hs[|hs| - 1])
  }

  /**
    What the parser accepts as size digits is hexadecimal, and has the hexadecimal value, iff no byte is
    above 127: the table holds zero for those, so they pass as the digit 0.
  */
  lemma {:induction false} SizeDigitsAreHexIff(hs: seq<byte>)
    requires SizeDigits(hs)
    ensures HexDigits(hs) <==> forall i :: 0 <= i < |hs| ==> hs[i] < 128
    ensures HexDigits(hs) ==> HexValue(hs) == Hexadecimal(hs)
  {
    if hs != [] {
      SizeDigitsAreHexIff(hs[..|hs| - 1]);
      assert forall i :: 0 <= i < |hs| - 1 ==> hs[..|hs| - 1][i] == hs[i];
    }
  }
}
