/** Header values that are matched against words, and what is heard in a list of connection tokens. */
module HttpTokens {
  import opened Bytes
  import opened HttpTypes
  import opened HttpStep

  const COMMA: byte := 44

  /** The bytes, with 0x20 set in each as the value matchers do, begin the word or are it with spaces behind. */
  predicate Begins(l: seq<byte>, word: string) {
    forall i :: 0 <= i < |l| ==> if i < |word| then At(word, i, Lower(l[i])) else l[i] == SP
  }

  /** The value is the word in any case, spaces at its end aside. */
  predicate Says(l: seq<byte>, word: string) {
    |l| >= |word| && Begins(l, word)
  }

  lemma BeginsSnoc(l: seq<byte>, b: byte, word: string)
    ensures Begins(l + [b], word) <==> Begins(l, word) && if |l| < |word| then At(word, |l|, Lower(b)) else b == SP
  {
    if Begins(l + [b], word) {
      forall i | 0 <= i < |l|
        ensures if i < |word| then At(word, i, Lower(l[i])) else l[i] == SP
      {
        assert (l + [b])[i] == l[i];
      }
      assert (l + [b])[|l|] == b;
    }
  }

  /** The sub-state in which a token of a Connection value, read so far, leaves the parser. */
  function ConnectionAfter(l: seq<byte>): HeaderState {
    if Begins(l, KEEP_ALIVE) then if |l| < |KEEP_ALIVE| then MatchingKeepAlive else KeepAlive
    else if Begins(l, CLOSE) then if |l| < |CLOSE| then MatchingClose else Close
    else if Begins(l, UPGRADE) then if |l| < |UPGRADE| then MatchingConnectionUpgrade else ConnectionUpgrade
    else Token
  }

  predicate Inside(h: HeaderState) {
    h == MatchingChunked || h == MatchingKeepAlive || h == MatchingClose || h == MatchingConnectionUpgrade
  }

  lemma ConnectionWords(l: seq<byte>)
    requires l != []
    ensures Begins(l, KEEP_ALIVE) ==> Lower(l[0]) == 107
    ensures Begins(l, CLOSE) ==> Lower(l[0]) == 99
    ensures Begins(l, UPGRADE) ==> Lower(l[0]) == 117
    ensures |KEEP_ALIVE| == 10 && |CLOSE| == 5 && |UPGRADE| == 7 && |CHUNKED| == 7
  {}

  lemma FirstLetters(c: byte)
    ensures At(CHUNKED, 0, c) <==> c == 99
    ensures At(KEEP_ALIVE, 0, c) <==> c == 107
    ensures At(CLOSE, 0, c) <==> c == 99
    ensures At(UPGRADE, 0, c) <==> c == 117
  {}

  // ---- Lists of tokens -------------------------------------------------------------------------

  /** Where the token that begins `v` ends: at the next comma or the end. */
  function TokenEnd(v: seq<byte>): (k: nat)
    requires v != []
    ensures 1 <= k <= |v| && (forall i :: 1 <= i < k ==> v[i] != COMMA) && (k < |v| ==> v[k] == COMMA)
  {
    if |v| == 1 || v[1] == COMMA then 1 else 1 + TokenEnd(v[1..])
  }

  /** A proper part of one of the three words, read so far as a token. */
  predicate Unfinished(t: seq<byte>) {
    Inside(ConnectionAfter(t))
  }

  /**
    Whether `word` is recognised in the list of tokens that `v` begins and the lines `more` continue.
    The comma behind an unfinished word is taken for a part of it, and so is what follows up to the
    next comma. A line that ends inside a token, or behind one, ends it all if it is continued.
  */
  predicate Hears(v: seq<byte>, more: seq<seq<byte>>, word: string)
    requires v != []
    decreases |more|, |v|, 0
  {
    var k := TokenEnd(v);
    if k == |v| then more == [] && Says(v, word)
    else if Unfinished(v[..k]) then
      var j := k + TokenEnd(v[k..]);
      j < |v| && HearsNext(v[j + 1..], more, word)
    else Says(v[..k], word) || HearsNext(v[k + 1..], more, word)
  }

  /**
    The same behind a comma: spaces are passed over, a line that ends there goes on with the next one,
    and a token that does not begin like one, or is empty, ends it all.
  */
  predicate HearsNext(v: seq<byte>, more: seq<seq<byte>>, word: string)
    decreases |more|, |v|, 1
  {
    if v == [] then more != [] && HearsNext(more[0], more[1..], word)
    else if Lower(v[0]) == SP then HearsNext(v[1..], more, word)
    else TokenOf(Lower(v[0])) != 0 && Hears(v, more, word)
  }

  /** The value asks for it. */
  predicate Asks(v: seq<byte>, more: seq<seq<byte>>, word: string) {
    v != [] && Hears(v, more, word)
  }

  /** The three connection flags raised as told. */
  function Raised(f: Flags, keepAlive: bool, close: bool, upgrade: bool): Flags {
    f.(keepAlive := f.keepAlive || keepAlive, close := f.close || close, connectionUpgrade := f.connectionUpgrade || upgrade)
  }

  lemma RaisedTwice(f: Flags, a: bool, b: bool, c: bool, d: bool, e: bool, g: bool)
    ensures Raised(Raised(f, a, b, c), d, e, g) == Raised(f, a || d, b || e, c || g)
    ensures Raised(f, false, false, false) == f
  {}

  /** The connection flags behind such a value. */
  function Heard(f: Flags, v: seq<byte>, more: seq<seq<byte>>): Flags {
    Raised(f, Asks(v, more, KEEP_ALIVE), Asks(v, more, CLOSE), Asks(v, more, UPGRADE))
  }

  lemma OneToken(v: seq<byte>, word: string)
    requires v != [] && COMMA !in v
    ensures Hears(v, [], word) <==> Says(v, word)
  {
    hide Says;
    assert TokenEnd(v) == |v|;
  }

  /** The matcher over the bytes of a value. */
  function Matched(q: Parser, l: seq<byte>): Parser {
    if l == [] then q else MatchToken(Matched(q, l[..|l| - 1]), l[|l| - 1], Lower(l[|l| - 1]))
  }

  /** The matcher behind the first byte of a token. */
  function Begun(f: Flags, b: byte): Parser {
    INITIAL.(headerState := ConnectionAfter([b]), index := 0, flags := f)
  }

  lemma BegunIs(f: Flags, b: byte)
    ensures var q := Begun(f, b); q.headerState == ConnectionAfter([b]) && q.index == 0 && q.flags == f
  {
    hide ConnectionAfter;
  }

  /** Where a value is continued, the matcher keeps only that it is behind a comma. */
  function Kept(h: HeaderState): HeaderState {
    if h == TokenStart then TokenStart else General
  }

  function Folded(q: Parser): Parser {
    q.(headerState := Kept(q.headerState), index := 0)
  }

  /** The matcher over the lines that continue a value. */
  function MatchedLines(q: Parser, more: seq<seq<byte>>): Parser {
    if more == [] then q else Matched(Folded(MatchedLines(q, more[..|more| - 1])), more[|more| - 1])
  }

  lemma {:induction false} LinesFirst(q: Parser, more: seq<seq<byte>>)
    requires more != []
    ensures MatchedLines(q, more) == MatchedLines(Matched(Folded(q), more[0]), more[1..])
    decreases |more|
  {
    hide Matched, Folded;
    var n := |more| - 1;
    if n > 0 {
      LinesFirst(q, more[..n]);
      assert more[..n][1..] == more[1..][..n - 1];
    }
  }

  /** They match alike from here. */
  predicate SameMatch(q: Parser, q1: Parser) {
    q.headerState == q1.headerState && q.index == q1.index && q.flags == q1.flags
  }

  lemma SameMatched(q: Parser, q1: Parser, ch: byte)
    requires SameMatch(q, q1)
    ensures SameMatch(MatchToken(q, ch, Lower(ch)), MatchToken(q1, ch, Lower(ch)))
  {
    hide MatchWord, TokenOf;
    var c := Lower(ch);
    match q.headerState {
      case MatchingChunked => SameWord(q, q1, CHUNKED, c, Chunked, General);
      case MatchingKeepAlive => SameWord(q, q1, KEEP_ALIVE, c, KeepAlive, Token);
      case MatchingClose => SameWord(q, q1, CLOSE, c, Close, Token);
      case MatchingConnectionUpgrade => SameWord(q, q1, UPGRADE, c, ConnectionUpgrade, Token);
      case _ =>
    }
  }

  lemma SameWord(q: Parser, q1: Parser, word: string, c: byte, whole: HeaderState, otherwise: HeaderState)
    requires SameMatch(q, q1)
    ensures SameMatch(MatchWord(q, word, c, whole, otherwise), MatchWord(q1, word, c, whole, otherwise))
  {
    hide At;
  }

  lemma NeverSizing(q: Parser, ch: byte)
    ensures NotSizing(MatchToken(q, ch, Lower(ch)).headerState)
  {
    hide At, TokenOf;
  }

  predicate NotSizing(h: HeaderState) {
    h != ContentLength && h != ContentLengthNum && h != ContentLengthWs
  }

  lemma MatchedNotSizing(f: Flags, l: seq<byte>)
    requires l != []
    ensures NotSizing(Matched(Begun(f, l[0]), l[1..]).headerState)
  {
    hide MatchToken, Begins;
    if |l| > 1 {
      var rest := l[1..];
      NeverSizing(Matched(Begun(f, l[0]), rest[..|rest| - 1]), rest[|rest| - 1]);
    }
  }

  lemma MatchedNone(q: Parser)
    ensures Matched(q, []) == q
  {}

  lemma {:induction false} MatchedAppend(q: Parser, a: seq<byte>, b: seq<byte>)
    ensures Matched(q, a + b) == Matched(Matched(q, a), b)
  {
    hide MatchToken;
    if b == [] {
      assert a + b == a;
    } else {
      MatchedAppend(q, a, b[..|b| - 1]);
      assert (a + b)[..|a + b| - 1] == a + b[..|b| - 1];
    }
  }

  lemma MatchedFirst(q: Parser, l: seq<byte>)
    requires l != []
    ensures Matched(q, l) == Matched(MatchToken(q, l[0], Lower(l[0])), l[1..])
  {
    hide MatchToken;
    assert l == [l[0]] + l[1..];
    MatchedAppend(q, [l[0]], l[1..]);
    assert [l[0]][..0] == [] && Matched(q, [l[0]]) == MatchToken(q, l[0], Lower(l[0]));
  }

  lemma {:induction false} SameMatchedAll(q: Parser, q1: Parser, l: seq<byte>)
    requires SameMatch(q, q1)
    ensures SameMatch(Matched(q, l), Matched(q1, l))
  {
    hide MatchToken;
    if l != [] {
      SameMatchedAll(q, q1, l[..|l| - 1]);
      SameMatched(Matched(q, l[..|l| - 1]), Matched(q1, l[..|l| - 1]), l[|l| - 1]);
    }
  }

  lemma {:induction false} SameLines(q: Parser, q1: Parser, more: seq<seq<byte>>)
    requires SameMatch(q, q1)
    ensures SameMatch(MatchedLines(q, more), MatchedLines(q1, more))
  {
    hide Matched;
    if more != [] {
      var before := more[..|more| - 1];
      SameLines(q, q1, before);
      SameMatchedAll(Folded(MatchedLines(q, before)), Folded(MatchedLines(q1, before)), more[|more| - 1]);
    }
  }

  lemma TrackToken(q: Parser, l: seq<byte>, ch: byte)
    requires l != [] && ch != COMMA && q.headerState == ConnectionAfter(l) && (Inside(q.headerState) ==> q.index == |l| - 1)
    ensures var q1 := MatchToken(q, ch, Lower(ch));
      q1.headerState == ConnectionAfter(l + [ch]) && q1.flags == q.flags && (Inside(q1.headerState) ==> q1.index == |l|)
  {
    hide At, Begins, TokenOf;
    BeginsSnoc(l, ch, KEEP_ALIVE);
    BeginsSnoc(l, ch, CLOSE);
    BeginsSnoc(l, ch, UPGRADE);
    ConnectionWords(l);
    ConnectionWords(l + [ch]);
  }

  /** One token, comma and all that follows aside. */
  lemma {:induction false} TokenMatched(f: Flags, t: seq<byte>, k: nat)
    requires 1 <= k <= |t| && forall i :: 1 <= i < |t| ==> t[i] != COMMA
    ensures var q := Matched(Begun(f, t[0]), t[1..k]);
      q.headerState == ConnectionAfter(t[..k]) && q.flags == f && (Inside(q.headerState) ==> q.index == k - 1)
  {
    hide MatchToken, ConnectionAfter;
    if k == 1 {
      assert t[..1] == [t[0]];
    } else {
      TokenMatched(f, t, k - 1);
      assert t[1..k][..k - 2] == t[1..k - 1];
      assert t[..k] == t[..k - 1] + [t[k - 1]];
      TrackToken(Matched(Begun(f, t[0]), t[1..k - 1]), t[..k - 1], t[k - 1]);
    }
  }

  /** What a comma does behind a token. */
  lemma CommaMatched(q: Parser, t: seq<byte>)
    requires t != [] && q.headerState == ConnectionAfter(t)
    ensures var q1 := MatchToken(q, COMMA, COMMA);
      if Unfinished(t) then q1.headerState == Token && q1.flags == q.flags
      else q1.headerState == TokenStart && q1.index == 0 && q1.flags == EndFlags(q)
  {
    hide Begins;
    NoComma();
  }

  lemma NoComma()
    ensures forall i :: !At(KEEP_ALIVE, i, COMMA) && !At(CLOSE, i, COMMA) && !At(UPGRADE, i, COMMA)
  {}

  lemma {:induction false} TokenStays(q: Parser, l: seq<byte>)
    requires q.headerState == Token && COMMA !in l
    ensures Matched(q, l).headerState == Token && Matched(q, l).flags == q.flags
  {
    if l != [] {
      TokenStays(q, l[..|l| - 1]);
    }
  }

  lemma GeneralByte(q: Parser, ch: byte)
    requires q.headerState == General
    ensures MatchToken(q, ch, Lower(ch)) == q
  {}

  lemma {:induction false} GeneralStays(q: Parser, l: seq<byte>)
    requires q.headerState == General
    ensures Matched(q, l).headerState == General && Matched(q, l).flags == q.flags
  {
    if l != [] {
      GeneralStays(q, l[..|l| - 1]);
    }
  }

  /** A continuation anywhere but behind a comma, and nothing is raised any more. */
  lemma {:induction false} ForgottenLines(q: Parser, more: seq<seq<byte>>)
    requires q.headerState == General || (more != [] && q.headerState != TokenStart)
    ensures MatchedLines(q, more).headerState == General && MatchedLines(q, more).flags == q.flags
  {
    hide Matched;
    if more != [] {
      var before, l := more[..|more| - 1], more[|more| - 1];
      if before != [] {
        ForgottenLines(q, before);
      }
      GeneralStays(Folded(MatchedLines(q, before)), l);
    }
  }

  /** The first byte of a token behind a comma. */
  lemma NextBegins(q: Parser, b: byte)
    requires q.headerState == TokenStart && q.index == 0
    ensures var q1 := MatchToken(q, b, Lower(b));
      && q1.flags == q.flags
      && if Lower(b) == SP then q1 == q
         else if TokenOf(Lower(b)) != 0 then q1.headerState == ConnectionAfter([b]) && q1.index == 0
         else q1.headerState == General
  {
    hide At, TokenOf;
    assert [] + [b] == [b];
    BeginsSnoc([], b, KEEP_ALIVE);
    BeginsSnoc([], b, CLOSE);
    BeginsSnoc([], b, UPGRADE);
    FirstLetters(Lower(b));
    LettersAreTokens();
    ConnectionWords([b]);
  }

  lemma LettersAreTokens()
    ensures TokenOf(107) != 0 && TokenOf(99) != 0 && TokenOf(117) != 0
  {}

  lemma ConnectionOutcome(v: seq<byte>)
    requires v != []
    ensures ConnectionAfter(v) == KeepAlive <==> Says(v, KEEP_ALIVE)
    ensures ConnectionAfter(v) == Close <==> Says(v, CLOSE)
    ensures ConnectionAfter(v) == ConnectionUpgrade <==> Says(v, UPGRADE)
    ensures ConnectionAfter(v) != Chunked
  {
    hide At, Begins;
    ConnectionWords(v);
  }

  /** Flags behind a token, and whatever else is heard behind it. */
  function HeardNext(f: Flags, v: seq<byte>, more: seq<seq<byte>>): Flags {
    Raised(f, HearsNext(v, more, KEEP_ALIVE), HearsNext(v, more, CLOSE), HearsNext(v, more, UPGRADE))
  }

  /** The token that begins a value, and what is left behind it. */
  lemma TokenRead(f: Flags, v: seq<byte>)
    requires v != []
    ensures var k, q := TokenEnd(v), Matched(Begun(f, v[0]), v[1..TokenEnd(v)]);
      && q.headerState == ConnectionAfter(v[..k]) && q.flags == f
      && Matched(Begun(f, v[0]), v[1..]) == Matched(q, v[k..])
  {
    hide MatchToken, ConnectionAfter, Begun, Matched, TokenEnd;
    var k := TokenEnd(v);
    var t := v[..k];
    assert t[..k] == t && t[1..k] == v[1..k] && t[0] == v[0];
    TokenMatched(f, t, k);
    assert v[1..] == v[1..k] + v[k..];
    MatchedAppend(Begun(f, v[0]), v[1..k], v[k..]);
  }

  /** The flags behind one token. */
  function Said(f: Flags, t: seq<byte>): Flags {
    Raised(f, Says(t, KEEP_ALIVE), Says(t, CLOSE), Says(t, UPGRADE))
  }

  /** What is heard, by the end of the first token. */
  lemma HeardUnfold(f: Flags, v: seq<byte>, more: seq<seq<byte>>)
    requires v != []
    ensures var k := TokenEnd(v);
      Heard(f, v, more) ==
        if k == |v| then if more == [] then Said(f, v) else f
        else if Unfinished(v[..k]) then
          var j := k + TokenEnd(v[k..]);
          if j < |v| then HeardNext(f, v[j + 1..], more) else f
        else HeardNext(Said(f, v[..k]), v[k + 1..], more)
  {
    hide Says, HearsNext, Hears, Unfinished, TokenEnd, Raised;
    HearsUnfold(v, more, KEEP_ALIVE);
    HearsUnfold(v, more, CLOSE);
    HearsUnfold(v, more, UPGRADE);
    RaisedTwice(f, false, false, false, false, false, false);
    var k := TokenEnd(v);
    if k < |v| {
      var t, rest := v[..k], v[k + 1..];
      RaisedTwice(f, Says(t, KEEP_ALIVE), Says(t, CLOSE), Says(t, UPGRADE),
                  HearsNext(rest, more, KEEP_ALIVE), HearsNext(rest, more, CLOSE), HearsNext(rest, more, UPGRADE));
    }
  }

  lemma HearsUnfold(v: seq<byte>, more: seq<seq<byte>>, word: string)
    requires v != []
    ensures var k := TokenEnd(v);
      Hears(v, more, word) ==
        if k == |v| then more == [] && Says(v, word)
        else if Unfinished(v[..k]) then k + TokenEnd(v[k..]) < |v| && HearsNext(v[k + TokenEnd(v[k..]) + 1..], more, word)
        else Says(v[..k], word) || HearsNext(v[k + 1..], more, word)
  {
    hide Says, HearsNext, Unfinished, TokenEnd;
  }

  /** The flags once the matcher at `q` has read `v` and the lines behind it. */
  function FlagsAfter(q: Parser, v: seq<byte>, more: seq<seq<byte>>): Flags {
    EndFlags(MatchedLines(Matched(q, v), more))
  }

  /** Reading a whole Connection value, folded or not, comes to what is heard in it. */
  lemma {:induction false} HeardAll(f: Flags, v: seq<byte>, more: seq<seq<byte>>)
    requires v != []
    ensures FlagsAfter(Begun(f, v[0]), v[1..], more) == Heard(f, v, more)
    decreases |more|, |v|, 0
  {
    hide MatchToken, ConnectionAfter, Begun, Unfinished, Heard, HeardNext, Said, Matched, TokenEnd, FlagsAfter;
    TokenRead(f, v);
    HeardUnfold(f, v, more);
    var k := TokenEnd(v);
    var t, q1 := v[..k], Matched(Begun(f, v[0]), v[1..k]);
    SameAfter(Begun(f, v[0]), v[1..], q1, v[k..], more);
    if k == |v| {
      assert t == v && v[k..] == [];
      TokenLast(q1, v, more);
    } else {
      MatchedFirst(q1, v[k..]);
      CommaMatched(q1, t);
      TokenFlags(q1, t);
      var q2 := MatchToken(q1, COMMA, COMMA);
      assert v[k..][1..] == v[k + 1..] && v[k..][0] == COMMA && Lower(COMMA) == COMMA;
      SameAfter(q1, v[k..], q2, v[k + 1..], more);
      if Unfinished(t) {
        SwallowedBehind(q2, v, more, k);
      } else {
        NextHeard(q2, v[k + 1..], more);
      }
    }
  }

  lemma SameAfter(q: Parser, v: seq<byte>, q1: Parser, v1: seq<byte>, more: seq<seq<byte>>)
    requires Matched(q, v) == Matched(q1, v1)
    ensures FlagsAfter(q, v, more) == FlagsAfter(q1, v1, more)
  {
    hide Matched, MatchedLines, EndFlags;
  }

  /** The last token of its line: the line behind it, if any, takes it back. */
  lemma TokenLast(q: Parser, t: seq<byte>, more: seq<seq<byte>>)
    requires t != [] && q.headerState == ConnectionAfter(t)
    ensures FlagsAfter(q, [], more) == if more == [] then Said(q.flags, t) else q.flags
  {
    hide Matched, Said, Begins, EndFlags, Folded;
    MatchedNone(q);
    if more == [] {
      TokenFlags(q, t);
    } else {
      ForgottenLines(q, more);
      StartEnds(MatchedLines(q, more));
    }
  }

  lemma TokenFlags(q: Parser, t: seq<byte>)
    requires t != [] && q.headerState == ConnectionAfter(t)
    ensures EndFlags(q) == Said(q.flags, t)
  {
    ConnectionOutcome(t);
    hide Says, ConnectionAfter;
  }

  /** Behind an unfinished word and a comma at `k`. */
  lemma {:induction false} SwallowedBehind(q: Parser, v: seq<byte>, more: seq<seq<byte>>, k: nat)
    requires 1 <= k < |v| && v[k] == COMMA && q.headerState == Token
    ensures var j := k + TokenEnd(v[k..]);
      FlagsAfter(q, v[k + 1..], more) == if j < |v| then HeardNext(q.flags, v[j + 1..], more) else q.flags
    decreases |more|, |v|, 0, 0
  {
    hide MatchToken, Matched, TokenEnd, HeardNext, FlagsAfter;
    var j := k + TokenEnd(v[k..]);
    assert v[k..][1..j - k] == v[k + 1..j];
    TokenStays(q, v[k + 1..j]);
    var q1 := Matched(q, v[k + 1..j]);
    if j < |v| {
      assert v[k..][j - k] == v[j];
      assert v[k + 1..] == v[k + 1..j] + v[j..];
      MatchedAppend(q, v[k + 1..j], v[j..]);
      MatchedFirst(q1, v[j..]);
      CommaStarts(q1);
      assert v[j..][1..] == v[j + 1..];
      var q2 := MatchToken(q1, COMMA, COMMA);
      SameAfter(q, v[k + 1..], q2, v[j + 1..], more);
      NextHeard(q2, v[j + 1..], more);
    } else {
      assert v[k + 1..j] == v[k + 1..];
      TokenEnds(q, v[k + 1..], more);
    }
  }

  lemma TokenEnds(q: Parser, v: seq<byte>, more: seq<seq<byte>>)
    requires Matched(q, v).headerState == Token && Matched(q, v).flags == q.flags
    ensures FlagsAfter(q, v, more) == q.flags
  {
    hide Matched, Folded;
    if more != [] {
      ForgottenLines(Matched(q, v), more);
    }
  }

  lemma CommaStarts(q: Parser)
    requires q.headerState == Token
    ensures var q1 := MatchToken(q, COMMA, COMMA); q1.headerState == TokenStart && q1.index == 0 && q1.flags == q.flags
  {}

  lemma {:induction false} NextHeard(q: Parser, v: seq<byte>, more: seq<seq<byte>>)
    requires q.headerState == TokenStart && q.index == 0
    ensures FlagsAfter(q, v, more) == HeardNext(q.flags, v, more)
    decreases |more|, |v|, 1
  {
    hide MatchToken, ConnectionAfter, Begun, Matched, HeardNext, Heard, FlagsAfter;
    NextUnfold(q.flags, v, more);
    if v == [] {
      LineGoesOn(q, more);
      if more != [] {
        NextHeard(q, more[0], more[1..]);
      }
    } else {
      MatchedFirst(q, v);
      NextBegins(q, v[0]);
      var q1 := MatchToken(q, v[0], Lower(v[0]));
      SameAfter(q, v, q1, v[1..], more);
      if Lower(v[0]) == SP {
        NextHeard(q, v[1..], more);
      } else if TokenOf(Lower(v[0])) != 0 {
        BegunIs(q.flags, v[0]);
        SameEnds(q1, Begun(q.flags, v[0]), v[1..], more);
        HeardAll(q.flags, v, more);
      } else {
        GeneralEnds(q1, v[1..], more);
      }
    }
  }

  /** A line that ends behind a comma. */
  lemma LineGoesOn(q: Parser, more: seq<seq<byte>>)
    requires q.headerState == TokenStart && q.index == 0
    ensures FlagsAfter(q, [], more) == if more == [] then q.flags else FlagsAfter(q, more[0], more[1..])
  {
    hide Matched, MatchedLines, EndFlags;
    MatchedNone(q);
    if more == [] {
      LinesNone(q);
      StartEnds(q);
    } else {
      assert Folded(q) == q;
      LinesFirst(q, more);
    }
  }

  lemma LinesNone(q: Parser)
    ensures MatchedLines(q, []) == q
  {}

  lemma GeneralEnds(q: Parser, v: seq<byte>, more: seq<seq<byte>>)
    requires q.headerState == General
    ensures FlagsAfter(q, v, more) == q.flags
  {
    hide Matched, MatchedLines;
    GeneralStays(q, v);
    ForgottenLines(Matched(q, v), more);
  }

  /** In these sub-states a line end raises nothing. */
  lemma StartEnds(q: Parser)
    requires q.headerState == TokenStart || q.headerState == General
    ensures EndFlags(q) == q.flags
  {}

  lemma NextUnfold(f: Flags, v: seq<byte>, more: seq<seq<byte>>)
    ensures HeardNext(f, v, more) ==
      if v == [] then if more == [] then f else HeardNext(f, more[0], more[1..])
      else if Lower(v[0]) == SP then HeardNext(f, v[1..], more)
      else if TokenOf(Lower(v[0])) != 0 then Heard(f, v, more)
      else f
  {
    hide Hears, TokenOf;
  }

  /** Where matching goes on alike it ends alike. */
  lemma SameEnds(q: Parser, q1: Parser, v: seq<byte>, more: seq<seq<byte>>)
    requires SameMatch(q, q1)
    ensures FlagsAfter(q, v, more) == FlagsAfter(q1, v, more)
  {
    hide Matched, MatchedLines;
    SameMatchedAll(q, q1, v);
    SameLines(Matched(q, v), Matched(q1, v), more);
  }
}
