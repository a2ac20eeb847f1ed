/** Folded headers at which the matchers do what a reader of the whole value would not expect, or would. */
module HttpFoldingCases {
  import opened Bytes
  import opened HttpTypes
  import opened HttpStep
  import opened HttpRun
  import opened HttpFeed
  import opened HttpNames
  import opened HttpTokens
  import opened HttpLists
  import opened HttpHeaders
  import opened HttpFolding

  const ENCODING_NAME: string := "Transfer-Encoding"
  const CONNECTION_NAME: string := "Connection"

  lemma EncodingName()
    ensures ClassOfName(Ascii(ENCODING_NAME)) == Encoding
  {
    hide At, PrefixOf, NameAfter;
    assert Lowered(Ascii(ENCODING_NAME)) == Ascii(TRANSFER_ENCODING);
    NameExact(Ascii(TRANSFER_ENCODING));
  }

  lemma ConnectionName()
    ensures ClassOfName(Ascii(CONNECTION_NAME)) == Connecting
  {
    hide At, PrefixOf, NameAfter;
    assert Lowered(Ascii(CONNECTION_NAME)) == Ascii(CONNECTION);
    NameExact(Ascii(CONNECTION));
  }

  /** A line that continues a value by a space and the text. */
  function Behind(text: string): Fold {
    Fold(SP, Ascii(text), false)
  }

  lemma OneFold(text: string)
    ensures Texts([Behind(text)]) == [Ascii(text)]
  {
    assert [Behind(text)][..0] == [];
  }

  /** A whole header behind others: the flags it leaves. */
  function FlagsBehind(q: GoodParser, h: Header): Flags
    requires q.state == HeaderFieldStart && Acceptable(h, q.flags.contentLength) && Room(q, |Line(h)|)
  {
    HeaderLine(q, [], 0, h);
    Settled(Over(Live(q, [], 0), Line(h))).q.flags
  }

  /** A word in small letters says itself. */
  lemma SelfSaid(word: string)
    requires forall i :: 0 <= i < |word| ==> word[i] == '-' || 'a' <= word[i] <= 'z'
    ensures Says(Ascii(word), word)
  {
    hide Lower, Ascii;
    forall i | 0 <= i < |word|
      ensures At(word, i, Lower(Ascii(word)[i]))
    {
      AsciiAt(word, i);
      SmallStays(word[i] as int);
    }
  }

  lemma AsciiAt(s: string, i: nat)
    requires i < |s| && s[i] <= '~'
    ensures Ascii(s)[i] == s[i] as int
  {}

  lemma SmallStays(b: byte)
    requires b == 45 || 97 <= b <= 122
    ensures Lower(b) == b
  {}

  /** `Transfer-Encoding:`, with nothing on its line, and `chunked` on the next: chunked, as on one line. */
  lemma EmptyLineThenChunked(q: GoodParser)
    requires q.state == HeaderFieldStart && Room(q, 100)
    ensures var h := Header(Ascii(ENCODING_NAME), [CR, LF, SP], Ascii(CHUNKED), false, []);
      Acceptable(h, q.flags.contentLength) && |Line(h)| <= 100 && FlagsBehind(q, h).chunked
  {
    hide Ascii, ClassOfName, Over, Settled, Acceptable, Line, LegalSpace, Says;
    EncodingName();
    SelfSaid(CHUNKED);
    EmptyLineAcceptable(q.flags.contentLength);
    HeaderLine(q, [], 0, Header(Ascii(ENCODING_NAME), [CR, LF, SP], Ascii(CHUNKED), false, []));
  }

  lemma EmptyLineAcceptable(sized: bool)
    ensures var h := Header(Ascii(ENCODING_NAME), [CR, LF, SP], Ascii(CHUNKED), false, []); Acceptable(h, sized) && |Line(h)| <= 100
  {
    hide ClassOfName, IsToken, LegalText, LegalValue, LegalSpace, Ascii;
    EncodingName();
    NameIsToken(ENCODING_NAME);
    TextIsLegal(CHUNKED);
    EmptyLineIsSpace();
  }

  lemma EmptyLineIsSpace()
    ensures LegalSpace([CR, LF, SP])
  {
    assert [CR, LF, SP][3..] == [];
  }

  /** `chunked` continued by an empty line is not recognised. */
  lemma ChunkedThenFold(q: GoodParser)
    requires q.state == HeaderFieldStart && Room(q, 100) && !q.flags.chunked
    ensures var h := Header(Ascii(ENCODING_NAME), [SP], Ascii(CHUNKED), false, [Behind("")]);
      Acceptable(h, q.flags.contentLength) && |Line(h)| <= 100 && !FlagsBehind(q, h).chunked
  {
    hide Ascii, ClassOfName, Over, Settled, Acceptable, Line, LegalSpace;
    EncodingName();
    EmptyFoldAcceptable(q.flags.contentLength);
    HeaderLine(q, [], 0, Header(Ascii(ENCODING_NAME), [SP], Ascii(CHUNKED), false, [Behind("")]));
  }

  lemma EmptyFoldAcceptable(sized: bool)
    ensures var h := Header(Ascii(ENCODING_NAME), [SP], Ascii(CHUNKED), false, [Behind("")]);
      Acceptable(h, sized) && |Line(h)| <= 100
  {
    hide ClassOfName, IsToken, LegalText, LegalValue, LegalSpace, LegalFold, Ascii, AllWritten;
    EncodingName();
    NameIsToken(ENCODING_NAME);
    TextIsLegal(CHUNKED);
    EmptyFold();
  }

  lemma EmptyFold()
    ensures LegalSpace([SP]) && LegalFold(Behind(""), false) && AllWritten([Behind("")]) == [SP, CR, LF]
  {
    assert [Behind("")][..0] == [] && AllWritten([]) == [];
  }

  /** What a comma has raised stays raised, whatever the lines behind. */
  lemma HeardBeforeFold(t: seq<byte>, u: seq<byte>, more: seq<seq<byte>>, word: string)
    requires t != [] && COMMA !in t && Says(t, word) && !Unfinished(t)
    ensures Asks(t + [COMMA] + u, more, word)
  {
    hide Says, Unfinished, HearsNext, TokenEnd;
    var v := t + [COMMA] + u;
    assert v[..|t|] == t;
    TokenEndAt(v, |t|);
  }

  /** A list that is continued behind a comma goes on. */
  lemma HeardBehindFold(t: seq<byte>, u: seq<byte>, more: seq<seq<byte>>, word: string)
    requires t != [] && COMMA !in t && !Unfinished(t)
    ensures Asks(t + [COMMA], [u] + more, word) <==> Says(t, word) || HearsNext(u, more, word)
  {
    hide Says, Unfinished, TokenEnd, Hears;
    var v := t + [COMMA];
    assert v[..|t|] == t && v[|t| + 1..] == [] && ([u] + more)[1..] == more;
    TokenEndAt(v, |t|);
    HearsUnfold(v, [u] + more, word);
  }

  lemma Finished()
    ensures var t := Ascii(CLOSE); t != [] && COMMA !in t && Says(t, CLOSE) && !Unfinished(t)
    ensures var t := Ascii(KEEP_ALIVE); t != [] && COMMA !in t && Says(t, KEEP_ALIVE) && !Unfinished(t)
    ensures var u := Ascii(UPGRADE); HearsNext(u, [], UPGRADE)
  {
    hide Begins;
    SelfSaid(CLOSE);
    SelfSaid(KEEP_ALIVE);
    SelfSaid(UPGRADE);
    ConnectionWords(Ascii(CLOSE));
    ConnectionWords(Ascii(KEEP_ALIVE));
    var u := Ascii(UPGRADE);
    OneToken(u, UPGRADE);
    LettersAreTokens();
    hide Hears;
    assert Lower(u[0]) == 117 != SP;
  }

  /** `close,x` continued by `upgrade`: the `close` before the comma counts, the `upgrade` behind the fold does not. */
  lemma CloseThenFold(q: GoodParser)
    requires q.state == HeaderFieldStart && Room(q, 100) && !q.flags.connectionUpgrade
    ensures var h := Header(Ascii(CONNECTION_NAME), [SP], Ascii(CLOSE) + [COMMA] + Ascii("x"), false, [Behind(UPGRADE)]);
      && Acceptable(h, q.flags.contentLength) && |Line(h)| <= 100
      && FlagsBehind(q, h).close && !FlagsBehind(q, h).connectionUpgrade
  {
    hide ClassOfName, Says, Unfinished, Asks, HearsNext, Over, Settled, Acceptable, Line, Texts, Ascii;
    var h := Header(Ascii(CONNECTION_NAME), [SP], Ascii(CLOSE) + [COMMA] + Ascii("x"), false, [Behind(UPGRADE)]);
    FoldAcceptable(h.first, UPGRADE, q.flags.contentLength);
    Finished();
    HeardBeforeFold(Ascii(CLOSE), Ascii("x"), [Ascii(UPGRADE)], CLOSE);
    LastTokenForgotten();
    OneFold(UPGRADE);
    ConnectionName();
    HeaderLine(q, [], 0, h);
  }

  lemma FoldAcceptable(v: seq<byte>, text: string, sized: bool)
    requires v == Ascii(CLOSE) + [COMMA] + Ascii("x") || v == Ascii(KEEP_ALIVE) + [COMMA]
    requires text == UPGRADE
    ensures var h := Header(Ascii(CONNECTION_NAME), [SP], v, false, [Behind(text)]); Acceptable(h, sized) && |Line(h)| <= 100
  {
    hide ClassOfName, IsToken, LegalText, LegalValue, Ascii;
    ConnectionName();
    NameIsToken(CONNECTION_NAME);
    TextIsLegal(UPGRADE);
    assert LegalSpace([SP]) && [Behind(text)][..0] == [];
    ValuesAre();
    TextIsLegal("close,x");
    TextIsLegal("keep-alive,");
    assert AllWritten([Behind(UPGRADE)]) == AllWritten([]) + Written(Behind(UPGRADE));
    assert |v| <= 11 && |CONNECTION_NAME| == 10 && |Written(Behind(UPGRADE))| == 10;
  }

  lemma ValuesAre()
    ensures Ascii("close,x") == Ascii(CLOSE) + [COMMA] + Ascii("x")
    ensures Ascii("keep-alive,") == Ascii(KEEP_ALIVE) + [COMMA]
  {}

  lemma LastTokenForgotten()
    ensures !Asks(Ascii(CLOSE) + [COMMA] + Ascii("x"), [Ascii(UPGRADE)], UPGRADE)
  {
    hide Begins, Ascii;
    var t, u, more := Ascii(CLOSE), Ascii("x"), [Ascii(UPGRADE)];
    Finished();
    TailIsX();
    var v := t + [COMMA] + u;
    assert v[..|t|] == t && v[|t| + 1..] == u;
    TokenEndAt(v, |t|);
    TokenEndAt(u, 1);
    CloseIsNotUpgrade();
    hide Says, Unfinished;
    HearsUnfold(v, more, UPGRADE);
    HearsUnfold(u, more, UPGRADE);
  }

  lemma TailIsX()
    ensures var u := Ascii("x"); u == [120] && Lower(u[0]) != SP
  {}

  lemma CloseIsNotUpgrade()
    ensures !Says(Ascii(CLOSE), UPGRADE)
  {}

  /** `keep-alive,` continued by `upgrade`: both count. */
  lemma ListThenFold(q: GoodParser)
    requires q.state == HeaderFieldStart && Room(q, 100)
    ensures var h := Header(Ascii(CONNECTION_NAME), [SP], Ascii(KEEP_ALIVE) + [COMMA], false, [Behind(UPGRADE)]);
      && Acceptable(h, q.flags.contentLength) && |Line(h)| <= 100
      && FlagsBehind(q, h).keepAlive && FlagsBehind(q, h).connectionUpgrade
  {
    hide ClassOfName, Says, Unfinished, Asks, HearsNext, Over, Settled, Acceptable, Line, Texts, Ascii;
    var h := Header(Ascii(CONNECTION_NAME), [SP], Ascii(KEEP_ALIVE) + [COMMA], false, [Behind(UPGRADE)]);
    FoldAcceptable(h.first, UPGRADE, q.flags.contentLength);
    Finished();
    assert [Ascii(UPGRADE)] + [] == [Ascii(UPGRADE)];
    HeardBehindFold(Ascii(KEEP_ALIVE), Ascii(UPGRADE), [], KEEP_ALIVE);
    HeardBehindFold(Ascii(KEEP_ALIVE), Ascii(UPGRADE), [], UPGRADE);
    OneFold(UPGRADE);
    ConnectionName();
    HeaderLine(q, [], 0, h);
  }
}
