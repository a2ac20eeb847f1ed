/** What the parser does behind a message that does not keep the connection: line ends are passed over, all else is an error. */
module HttpClosing {
  import opened Bytes
  import opened HttpTypes
  import opened HttpStep
  import opened HttpRun
  import opened HttpFeed
  import opened HttpHeaders
  import opened HttpHead
  import opened HttpBody
  import opened HttpRequest
  import opened HttpParserModule
  import opened HttpMessages

  predicate LineEnds(s: seq<byte>) {
    forall i :: 0 <= i < |s| ==> s[i] == 13 || s[i] == 10
  }

  /** A byte behind the last message of a connection. */
  lemma ClosedByte(q: GoodParser, trace: seq<Event>, n: nat, ch: byte)
    requires q.state == Dead
    ensures if LineEnds([ch]) && Room(q, 1)
      then Good(q.(nread := q.nread + 1)) && Advance(Live(q, trace, n), ch) == Live(q.(nread := q.nread + 1), trace, n + 1)
      else Advance(Live(q, trace, n), ch) == Failed
  {
    hide Advance, Good, MethodString;
    assert LineEnds([ch]) <==> LineEnd(ch) by {
      assert [ch][0] == ch;
    }
    if !Room(q, 1) {
      NoRoom(Live(q, trace, n), ch);
    } else if LineEnd(ch) {
      TakesQuietly(q, trace, n, ch, q.(nread := q.nread + 1));
    } else {
      Refuses(q, trace, n, ch);
    }
  }

  lemma LineEndsCons(s: seq<byte>)
    requires s != []
    ensures LineEnds(s) <==> LineEnds([s[0]]) && LineEnds(s[1..])
  {
    assert s == [s[0]] + s[1..];
    assert forall i :: 1 <= i < |s| ==> s[i] == s[1..][i - 1];
    assert [s[0]][0] == s[0];
  }

  /** Any bytes behind the last message. */
  lemma {:induction false} ClosedOver(q: GoodParser, trace: seq<Event>, n: nat, more: seq<byte>)
    requires q.state == Dead
    ensures if LineEnds(more) && Room(q, |more|)
      then
        var q1 := q.(nread := q.nread + |more|);
        Good(q1) && Over(Live(q, trace, n), more) == Live(q1, trace, n + |more|)
      else Over(Live(q, trace, n), more) == Failed
    decreases |more|
  {
    hide Advance, Good, Over, MethodString, LineEnds;
    var start := Live(q, trace, n);
    if more == [] {
      OverNone(start);
      NoneYet(q);
    } else {
      assert more == [more[0]] + more[1..];
      OverAppend(start, [more[0]], more[1..]);
      OverOne(start, more[0]);
      ClosedByte(q, trace, n, more[0]);
      LineEndsCons(more);
      if Advance(start, more[0]).Live? {
        ClosedOver(q.(nread := q.nread + 1), trace, n + 1, more[1..]);
      } else {
        FailedStays(more[1..]);
      }
    }
  }

  lemma NoneYet(q: GoodParser)
    ensures LineEnds([]) && Room(q, 0)
  {
    hide MethodString;
  }

  /** Whole, within the budget, not keeping the connection and not asking for another protocol. */
  predicate LastMessage(m: Message) {
    LegalMessage(m) && |Wire(m.request)| <= MAX_HEADER_SIZE && !StaysOpen(m) && !Switches(m.request)
  }

  /** What comes of a run `r` over a last message when `more` follows. */
  ghost predicate ClosedRun(r: Run, r1: Run, m: Message, more: seq<byte>) {
    && r.Live? && Completions(r.trace) == 1
    && (r1.Failed? <==> !LineEnds(more) || Carry(m) + |more| > 81920)
    && (!r1.Failed? ==> r1.Live? && r1.trace == r.trace && r1.n == r.n + |more| && r1.q == r.q.(nread := Carry(m) + |more|))
  }

  /**
    Behind a whole message that neither keeps the connection nor asks for another protocol nothing is
    reported any more: what follows, cut into calls in any way, is passed over iff it consists of line ends
    within the budget of 80 KiB for headers, on which trailers count too, and otherwise the run fails.
  */
  lemma ClosedBehind(m: Message, more: seq<byte>, pieces: seq<seq<byte>>)
    requires LastMessage(m) && Concat(pieces) == MessageWire(m) + more
    ensures Good(INITIAL)
    ensures ClosedRun(Over(Live(INITIAL, [], 0), MessageWire(m)), OverPieces(Live(INITIAL, [], 0), pieces), m, more)
  {
    hide Good, Over, OverPieces, MessageWire, LegalMessage, StaysOpen, Switches, LedgerOf, Wire, LineEnds, Any, NewMessage, Advance;
    InitialIsGood();
    var start := Live(INITIAL, [], 0);
    PiecesLikeWhole(start, pieces);
    OverAppend(start, MessageWire(m), more);
    LastLeavesDead(m);
    var r := Over(start, MessageWire(m));
    ClosedOver(r.q, r.trace, r.n, more);
  }

  lemma LastLeavesDead(m: Message)
    requires LastMessage(m)
    ensures Good(INITIAL)
    ensures var r := Over(Live(INITIAL, [], 0), MessageWire(m));
      r.Live? && r.q.state == Dead && r.q.nread == Carry(m) && Completions(r.trace) == 1
  {
    hide Good, Over, MessageWire, LegalMessage, StaysOpen, Switches, LedgerOf, Wire, Any, NewMessage, Completions, Carry;
    InitialIsGood();
    OneMessage(INITIAL, [], 0, m);
    WholeConserved(m);
    NotOpen(Over(Live(INITIAL, [], 0), MessageWire(m)).q);
  }

  lemma NotOpen(q: Parser)
    ensures NewMessage(q) == StartReq || NewMessage(q) == Dead
  {}

  lemma ConcatOne(s: seq<byte>)
    ensures Concat([s]) == s
  {
    assert Concat([s]) == s + Concat([s][1..]) == s;
  }

  const OLD_POST: Request := Request(POST, [47], Http, 1, 0, TIGHT, false, [], false)

  lemma OldPost()
    ensures LastMessage(Message(OLD_POST, Nothing))
    ensures MessageWire(Message(OLD_POST, Nothing)) == Wire(OLD_POST) == Ascii("POST / HTTP/1.0\r\n\r\n")
    ensures Ascii("POST / HTTP/1.0\r\n\r\n")[0] == 80
  {
    OldPostWritten();
    hide Wire, Ascii;
    PathIsLegal(POST, [47]);
    assert Wire(OLD_POST) + [] == Wire(OLD_POST);
  }

  lemma OldPostWritten()
    ensures Wire(OLD_POST) == Ascii("POST / HTTP/1.0\r\n\r\n")
    ensures |Wire(OLD_POST)| == 19 && Ascii("POST / HTTP/1.0\r\n\r\n")[0] == 80
  {
    OldLineWritten();
    assert "POST / HTTP/1.0\r\n" + "\r\n" == "POST / HTTP/1.0\r\n\r\n";
    AsciiAppend("POST / HTTP/1.0\r\n", "\r\n");
    assert Ascii("\r\n") == Ending(false);
    assert Ascii("POST / HTTP/1.0\r\n\r\n")[0] == 80;
    hide Ascii, LineWire;
    assert LineWire(OLD_POST) + [] == LineWire(OLD_POST);
  }

  lemma OldLineWritten()
    ensures LineWire(OLD_POST) == Ascii("POST / HTTP/1.0\r\n")
  {}

  /** A second request behind one of version 1.0. */
  lemma OldRequestCloses()
    ensures Good(INITIAL)
    ensures var w := Ascii("POST / HTTP/1.0\r\n\r\n");
      Wire(OLD_POST) == w && Over(Live(INITIAL, [], 0), w).Live? && Over(Live(INITIAL, [], 0), w + w) == Failed
  {
    hide Good, Over, OverPieces, Ascii, Wire, LastMessage, MessageWire;
    var w := Ascii("POST / HTTP/1.0\r\n\r\n");
    InitialIsGood();
    OldPost();
    ConcatOne(w + w);
    ClosedBehind(Message(OLD_POST, Nothing), w, [w + w]);
    PiecesLikeWhole(Live(INITIAL, [], 0), [w + w]);
  }
}
