# A verified model of the WebSocket engine

This project models the three stateful cores of the engine and proves properties of them over all
inputs and all runs. `dafny verify dfyconfig.toml` checks it.

**HTTP.** `HttpStep` has the arms of the switch in `http_parser_execute` as functions of the parser and
one byte; `HttpRun` lets them run over a stream and proves the invariant that makes every assertion of
the parser hold. `HttpExecute.Execute` is the function as it is written: a loop over the input with
data marks, inner loops that run through names, values and bodies, bytes counted in bulk and arms
re-executed. It is proved to deliver what the byte-wise run delivers, and so does not depend on
buffering. The configuration is the engine's own: requests only, strict, not lenient, with callbacks
that return 0. Callbacks are compared as canonical traces, in which adjacent data callbacks of one kind
are concatenated. `HttpNames`, `HttpLengths`, `HttpTokens`, `HttpHeaders`, `HttpFolding`, `HttpHead`,
`HttpBody` and `HttpRequest` say what whole tokens, values, headers, header blocks, bodies and
requests come to, `HttpLists` and `HttpFoldingCases` how that compares with the lists and the folded
values of RFC 7230, `HttpMessages` what whole messages, one behind the other, `HttpClosing` what is taken
behind the last one, `HttpCallbacks` which orders of callbacks can occur at all, `Handshake`,
`HandshakeCases` and `Handover` how the connection goes over to frames, `Answering` what the answers to
requests ask of the TCP connection, and `Url` and `UrlCompose` how URLs are split. Lines may end in CR LF
or in a bare LF, and a header may be folded over any number of lines.

The way back is in `HttpReported`, `HttpReportedLine`, `HttpReportedHeader`, `HttpReportedHead` and
`HttpReportedBody`, from what is reported to what was written, and in `UrlLanguage` and `UrlAccepted`, from
an accepted URL to its parts. `HttpLanguage` puts both ways together: exactly the wire forms of legal
requests and messages are reported. `HttpTables` has the character classes in which all of that is told,
held against the RFCs.

**Frames.** `Framing` has `decode` and `parse` as functions of the decoder's fields, with the recursion
of `decode` followed to its end or to the point from where it would never return.
`WebSocketConnection.dfy` is the class, with the buffers it compacts, un-reads, un-writes and unmasks in
place, proved against these functions. `FramingSplit` is about how TCP cuts the stream, `FramingFrames`
about what frames mean and about the encoder, `FramingCases` about the frames that the engine sends of its
own and about the examples of RFC 6455, `FramingTermination` about when `decode` returns, `FramingSilence`
about which bytes go unnoticed.
`Buffer.dfy` is the buffer they all share, a compacting and growing vector behind the view of a byte queue.

**Output.** `Output` has sends, write completions and close requests as steps, and runs of them;
`TcpConnection.dfy` is the class, proved to take these steps. `Teardown` lets what the decoder asks for
drive them, from whatever the connection has sent before up to the disconnect behind a close frame.

## What the code does that its documentation does not say

- A ping or pong with a payload that arrives while the decode buffer is empty stays in that buffer and
  becomes the beginning of the next message (`FramingFrames.PingLeaksIntoMessage`). On legal frames
  without a close frame the decoder is, exactly apart from that, the receiver of RFC 6455
  (`FramingFrames.DecoderRefinesReceiver`).
- A close frame keeps its header. Between two frames, and in any status, `decode` calls itself for ever
  iff its input is frames that it goes on from, an empty close frame, and at least one byte more
  (`FramingTermination.DivergesIff`; `DivergesFromHeaderIff` with a header already read). A kept header
  also spans calls while the connection is closing: a later call then hangs iff the payload length is 0
  and enough bytes for the gate arrive (`FramingTermination.KeptHeaderAcrossCalls`). A connection that the
  close frame has closed ignores later calls (`FramingTermination.CloseThenCalls`).
- `close` leaves its frame in the output buffer, so that a ping or pong after it sends the close frame once
  more, in front of its own (`FramingCases.CloseIsRepeated`).
- After a close request, the two-buffer `send` overtakes bytes that are still queued
  (`Output.TwoBufferSendOvertakesUnless`, reached in `Output.OvertakingIsReached`), and bytes sent during
  the last write are accepted and never written (`Output.DeferredCloseDrains`, reached in
  `Output.LateSendIsLost`).
- The upper half of the table of hexadecimal digits is zero, so a chunk-size line of the single byte
  0x80 ends a chunked body (`HttpBody.HighByteEndsBody`).
- In a Connection header the comma behind a proper part of `keep-alive`, `close` or `upgrade` does not
  end the token, so the next one is not recognised; an empty element hides all that follow, and so does
  a tab behind a comma (`HttpLists.UnfinishedHides`, `EmptyHides`, `TabHides`, with inputs in
  `ListMisheard`). In a list without any of these, in which every element begins like a token, exactly
  the listed words are recognised (`HttpLists.RegularListHeard`).
- A header that is folded over several lines is delivered whole, but the matchers keep over a fold only
  whether they are behind a comma of a Connection header. So `chunked` is not recognised if any line
  follows it (`HttpFoldingCases.ChunkedThenFold`), and of a Connection header the words that a comma has
  ended count, the list goes on in the next line where a line ends behind a comma, and otherwise nothing
  of the token before the fold and of the lines behind it is recognised (`HttpFoldingCases.CloseThenFold`,
  `ListThenFold`). A first line without a value is passed over as white space
  (`HttpFoldingCases.EmptyLineThenChunked`), and behind a Content-Length a fold is a space. These are all
  the cases there are (`HttpFolding.HeaderLine`, with `HttpTokens.HeardAll` for the lists).
- A request with a folded header is not answered at all: the line that continues a value comes in a
  callback of its own, and `setHeaderValue` asserts a name for it, which the first line has used up
  (`Handshake.NamedIff`, `Handshake.AbortedIff`, with an input in `HandshakeCases.FoldedAborts`). The build
  has assertions enabled; without them that request would be answered by switching while the parser does
  not recognise it as one. What is accepted the parser always recognises (`Handshake.AcceptedSwitches`).
- A refused request that keeps the connection and the head of another one in the same read fail the
  assertion of `send`, as the connection is closing when the second answer is sent
  (`Answering.RefusedThenHead`, with an input in `Answering.TwoRefused`). Answers are allowed, wherever
  writes complete in between, iff none follows a refusal (`Answering.AnswersAllowedIff`).
- A request that is accepted as a handshake but announces a body swallows as many frame bytes as that
  body is long, if they arrive in the same read (`Handshake.HandoverIff`,
  `HandshakeCases.BodySwallowsFrames`), and the test on the HTTP version lets the versions 0.1 to 0.9 pass
  (`Handshake.AcceptedVersions`, `HandshakeCases.AncientVersionAccepted`), and a request line without a
  version too (`HandshakeCases.UnversionedAccepted`).
- Frames that arrive in the read that completes the handshake are not decoded before a further read, so
  that a message in them is held back (`Handover.MessageWithheld`); nothing is missing meanwhile iff these
  bytes are silent frames and an unfinished one (`Handover.FramesBehindHandshake`).
- A URL whose fragment follows the host directly is refused, and so is one with an empty port
  (`UrlCompose.ComposeThenSplit`). A target of CONNECT is accepted with an empty query and any number of
  number signs behind its port (`UrlAccepted.ConnectIff`). In a URL longer than 65535 bytes offsets and lengths are told modulo
  65536 (`Url.HttpParserUrl.ParseUrl`, `UrlCompose.LongPath`), and of a longer host only as many bytes are
  looked at, so that one of 65536 bytes is refused (`UrlCompose.LongHost`).
- In `putUInt64` the mask of the low word has 36 bits, which makes no difference
  (`BufferModule.HalvesOfUInt64`). In the inner loop for header values one byte is passed over without
  being looked at, but only beyond the header budget, where the call fails anyway
  (`HttpExecute.ScanValue`).

## Model

| member | source | states |
|---|---|---|
| HttpExecute.Execute | src/http_parser.c:639-2085 | On any nonempty input the loop with its marks, inner loops and bulk counting ends in the same parser, consumes the same number of bytes and makes the same callbacks as the byte-wise run, errs iff that run errs, terminates, and leaves `nread` within the budget whenever it does not err |
| HttpExecute.ScanField | src/http_parser.c:1249-1383 | The header-name loop with its fast-forward over uninteresting names stops where the byte-wise run is, errs only if that run errs, and delivers the name in one slice |
| HttpExecute.ScanValue | src/http_parser.c:1470-1669 | The header-value loop with its fast-forward stops where the byte-wise run is, although it may pass over a byte past the budget |
| HttpExecute.ScanBody | src/http_parser.c:1874-1908 | Taking many body bytes at once comes to taking them one by one, the last one delivered before the state is re-executed |
| HttpExecute.RunArms | src/http_parser.c:714-2053 | Re-executing arms on one byte terminates and updates marks and callbacks as the byte-wise step does |
| HttpExecute.AtMostOneMark | src/http_parser.c:684-707 | Wherever the mark invariant holds, which every loop of the parser keeps, no two marks are set, and outside bodies only the one of the data being collected |
| HttpExecute.LeftoverDelivers | src/http_parser.c:2055-2077 | The callbacks for marks left when the input runs out deliver exactly what is pending |
| HttpRun.StepKeeps | src/http_parser.c:709-2053 | Whatever byte arrives, a parser that satisfies the invariant errs or satisfies it again: sub-states, indices, lengths and the header count stay in range, so no assertion of the switch can fail |
| HttpRun.ArmKeeps | src/http_parser.c:714-2053 | Every arm keeps the invariant and sets, keeps and flushes marks only as the states before and after it say |
| HttpRun.LengthDigitExact | src/http_parser.c:1530-1558 | An accepted Content-Length digit does not wrap around 64 bits and cannot produce the sentinel |
| HttpRun.ChunkDigitExact | src/http_parser.c:1942-1977 | An accepted chunk-size digit does not wrap around 64 bits and cannot produce the sentinel |
| HttpRun.OverAppend | src/http_parser.c:639-2085 | A run over two pieces is the run over the second from where the first ended |
| HttpRun.RunQuiet | src/http_parser.c:1827-1843 | From outside, a parser has left to another protocol iff it is between messages with `upgrade` set |
| HttpParserModule.BufferingIndependence | src/http_parser.c:639-2085 | However the same stream is cut into calls, the run is the same: consumed count, parser fields and callbacks |
| HttpParserModule.HttpParser.Execute | src/http_parser.c:639-682 | The call as it updates `struct http_parser`, with the early return after an error and the end of input; it reaches what the byte-wise run from the object's state reaches |
| HttpParserModule.HttpParser.ExecuteAll | src/WebSocketConnection.cpp:410-422 | Pieces handed over one call each, until a call stops at an upgrade or fails, leave the object as the whole stream in one call would |
| HttpCallbacks.CallbacksFollowGrammar | src/http_parser.c:709-2077 | On every input and at every moment the callbacks made follow the grammar of a request: URL before headers, names before values, body after headers, chunk data and bodies exactly as long as announced, completion last; and the parser leaves only right behind `message_complete` |
| HttpCallbacks.CompletionsMatchBeginnings | src/http_parser.c:1836-1926 | Under the grammar every `message_begin` is answered by one `message_complete` at most, and by exactly one between messages |
| HttpCallbacks.BodiesConserved | src/http_parser.c:1827-2046 | On every input and at every moment the chunk bytes delivered are those announced by chunk headers less what is left of the current chunk, the other body bytes those announced by Content-Length headers that count less what is left of the current body, and no others are delivered |
| HttpNames.MethodExact | src/http_parser.c:950-1015 | At the space the tracked method is `m` iff the bytes before it are the name of `m`; other bytes were rejected |
| HttpNames.MethodReached | src/http_parser.c:921-1015 | Every one of the 34 methods is reachable: its own bytes lead to it along the edges of the nested switch |
| HttpNames.NameRead | src/http_parser.c:1199-1383 | A header name of any length is delivered whole, and the sub-state at the colon is the one its lower-case form calls for |
| HttpNames.NameExact | src/http_parser.c:1259-1364 | That sub-state is connection, content-length, transfer-encoding or upgrade iff the name is that word, or proxy-connection for the first |
| HttpLengths.ContentLengthExact | src/http_parser.c:1424-1438 | Digits of any length are accepted iff the number without its last digit is within the conservative limit, and then the length is their decimal value, below the sentinel |
| HttpLengths.ChunkSizeExact | src/http_parser.c:1928-1981 | The same for chunk-size digits and their value in the parser's table |
| HttpLengths.SizeDigitsAreHexIff | src/http_parser.c:1935-1940 | Accepted size digits are hexadecimal digits, with the hexadecimal value, iff no byte is above 127 |
| HttpTokens.HeardAll | src/http_parser.c:1445-1722 | Read byte by byte, any Connection value whatever, on one line or folded over several, raises exactly the flags of the words that are heard in it as a list of tokens |
| HttpLists.HeardIsListed | src/http_parser.c:1577-1722 | Whatever is heard in a Connection value, folded or not, is an element of the list that it is with its lines joined |
| HttpLists.RegularListHeard | src/http_parser.c:1577-1722 | If no token but the last is a proper part of a known word, every one behind a comma begins like a token, lines end behind commas, and there are no tabs, exactly the listed words are heard |
| HttpLists.UnfinishedHides | src/http_parser.c:1595-1636 | The token behind a proper part of a known word is never heard, and what is heard behind it is what is heard in the rest of the list |
| HttpLists.EmptyHides | src/http_parser.c:1577-1593 | Behind an empty element, wherever in the list it is, nothing is heard |
| HttpLists.TabHides | src/http_parser.c:1577-1593 | Nor is anything behind a tab in front of an element, wherever in the list that is |
| HttpLists.ListMisheard | src/http_parser.c:1577-1636 | Three concrete lists in which a listed `upgrade` is not heard for these reasons |
| HttpFolding.HeaderLine | src/http_parser.c:1228-1779 | A whole header that the parser takes, on one line or folded over any number of them, with a value on the first line or not, delivers its name and its whole value, and changes exactly the flags that its class and its lines call for: chunked iff an unfolded Transfer-Encoding says so, each connection flag iff its word is heard in a Connection value, and the length to the digits of a Content-Length with spaces and folds behind them |
| HttpFolding.BlankContinues | src/http_parser.c:1682-1690 | A blank behind any header line that has a value makes the next one continue it, with only being behind a comma kept in the matcher, and for a space in a Content-Length |
| HttpFoldingCases.EmptyLineThenChunked | src/http_parser.c:1385-1423 | A concrete Transfer-Encoding that is recognised although its first line is empty |
| HttpFoldingCases.ChunkedThenFold | src/http_parser.c:1682-1690 | One that is not recognised because an empty line continues it |
| HttpFoldingCases.CloseThenFold | src/http_parser.c:1637-1660 | A folded Connection header of which `close` counts and `upgrade` does not |
| HttpFoldingCases.ListThenFold | src/http_parser.c:1459-1461 | One continued behind a comma of which both words count |
| HttpHeaders.SettledNext | src/http_parser.c:1692-1779 | Any byte but a blank behind a header line is read from the start of a line with the flags set |
| HttpHead.HeaderBlock | src/http_parser.c:1228-1779 | A block of any number of headers, each folded or not, delivers all of them in order, sets each flag iff some header asks for it, and takes the one Content-Length there is |
| HttpHead.BlankLineRead | src/http_parser.c:1781-1872 | The blank line refuses chunked together with Content-Length, reports the headers with the right `upgrade`, and leaves, goes into the right body or ends the message |
| HttpMessages.BodyConserved | src/http_parser.c:920-2046 | However a whole request, its head and a body with Content-Length, with chunks and trailers, or none, is cut into calls, the body slices concatenate to exactly the body, `message_complete` comes once and last, and the parser leaves iff the headers ask for a switch and otherwise goes on iff the connection is kept |
| HttpMessages.PipelinedBodies | src/http_parser.c:709-2046 | Any number of such requests one behind the other, each but the last keeping the connection, cut into calls anywhere, deliver their bodies one by one, each whole and completed before the next, with nothing left over |
| HttpBody.HighByteEndsBody | src/http_parser.c:1928-1998 | The byte 0x80 is not hexadecimal; on a line of its own it is the last size line, and a blank line behind it ends the message |
| HttpBody.ChunkRead | src/http_parser.c:1928-2046 | One chunk, with extensions, comes to its header, its data and its completion, and resets the header count |
| HttpRequest.RequestRoundTrip | src/http_parser.c:920-1872 | A request written from method, target, HTTP or Icecast version or none, and headers, with any line ends before it, any spaces in its first line and any folds, and cut in any way, is delivered as it was, with what its headers say of the body, and a switch of protocols is told iff its headers ask for it |
| HttpClosing.ClosedBehind | src/http_parser.c:717-725 | Behind a whole message that neither keeps the connection nor asks for a switch, cut into calls in any way, nothing is reported any more: the run fails iff some byte is neither CR nor LF or the 80 KiB for headers are exceeded, and otherwise trace and parser are those behind the message |
| HttpClosing.OldRequestCloses | src/http_parser.c:717-725 | A concrete request of version 1.0, byte by byte, behind which another one fails |
| HttpLanguage.HeadIff | src/http_parser.c:920-1872 | From between two messages, as long as nothing fails, a further head has been reported complete iff the input begins with the wire form of a legal request within what is left of the budget |
| HttpLanguage.MessageIff | src/http_parser.c:920-2046 | A further message has been completed iff the input begins with the wire form of a legal message, head and body, or of a legal request to connect |
| HttpLanguage.LanguageOfPieces | src/http_parser.c:639-2085 | The same for a new connection and input cut into calls in any way |
| HttpReportedHead.ReportedIsRequest | src/http_parser.c:920-1872 | Whatever head is reported complete is the wire form of a legal request: method, target, version, every header and every fold |
| HttpReportedBody.ChunkedFirst | src/http_parser.c:1928-2046 | Whatever chunked body is reported complete is the wire form of legal chunks, a last size line, trailers and a blank line |
| HttpReported.Fits | src/http_parser.c:155-162 | A head or a block of trailers that is reported fits into what is left of the header budget, since every byte of it is counted |
| HttpTables.Letters | src/http_parser.c:417-421 | Letters, digits and hexadecimal digits as characters, and letters in lower case |
| HttpTables.LowerBits | src/http_parser.c:417 | The lower case of any byte is the byte with the bit of weight 32 set |
| HttpTables.TokenChars | src/http_parser.c:190-222 | The table of token characters has those of section 3.2.6 of RFC 7230, letters in lower case |
| HttpTables.UrlChars | src/http_parser.c:244-276 | The table of URL characters has the visible ones except number sign and question mark |
| HttpTables.HeaderChars | src/http_parser.c:443-448 | Header characters within a line are those of a field value in section 3.2 of RFC 7230 |
| HttpTables.UserinfoChars | src/http_parser.c:422-427 | Userinfo characters are those of section 3.2.1 of RFC 3986 |
| HttpTables.HostChars | src/http_parser.c:2200-2245 | The characters of host names, of addresses in brackets and of zone identifiers |
| HttpRequest.PathIsLegal | src/http_parser.c:540-560 | Any path of visible characters is a target that is accepted |
| Handshake.AcceptedIff | src/WebSocketConnection.cpp:54-105 | The answer is to switch iff no header is folded and method, version and the first values of the five headers are as asked for, that of Upgrade in any case, with the key of the first key header; a folded header ends the program |
| Handshake.LowerIff | src/WebSocketConnection.cpp:78-79 | The Upgrade value in lower case is `websocket` iff it is that word in any mixture of capitals and small letters |
| Handshake.NamedIff | include/ws/WebSocketConnection.h:53-61 | Over the callbacks of a header block in one call the assertion of `setHeaderValue` holds iff every header has a name and none is folded |
| Handshake.AbortedIff | include/ws/WebSocketConnection.h:53-61 | A request that the parser takes goes unanswered for that assertion iff one of its headers is folded |
| Handshake.HeadersCollected | include/ws/WebSocketConnection.h:53-61 | What the header callbacks of one call collect, one for every line of a value, is a map from every name to the first line of its first header |
| Handshake.AcceptedSwitches | src/http_parser.c:1791-1804 | Whatever is accepted, the parser's own matchers have recognised as a request to switch |
| Handshake.JudgedSwitches | src/http_parser.c:1791-1804 | Of what the values of the headers let pass, folded or not, they have iff some Connection header asks for it, and that is so if none is folded |
| Handshake.HandoverIff | src/WebSocketConnection.cpp:417-419 | An accepted request is answered once, and the parser stops exactly behind its blank line, whatever follows, iff the headers do not announce a body; otherwise it goes on into that body |
| Handshake.HeadOver | src/http_parser.c:920-1872 | Any request between two messages makes just its own callbacks, and the parser leaves behind it iff it asks for a switch and nothing is left of the message |
| Handshake.AcceptedVersions | src/WebSocketConnection.cpp:61-65 | Among the accepted requests the version is lower than the 1.1 that section 4.2.1 of RFC 6455 asks for iff its major number is 0 |
| HandshakeCases.HandshakeExample | src/WebSocketConnection.cpp:54-105 | A concrete handshake, byte by byte, with `Upgrade: WebSocket`, that is answered by switching, and behind which the parser leaves |
| HandshakeCases.AncientVersionAccepted | src/WebSocketConnection.cpp:61-65 | A concrete request of version 0.1 that is accepted |
| HandshakeCases.UnversionedAccepted | src/WebSocketConnection.cpp:61-65 | A concrete request without a version that is accepted |
| HandshakeCases.FoldedAborts | include/ws/WebSocketConnection.h:53-61 | A concrete handshake with a folded header that fails the assertion, and that without it would be answered by switching and not recognised by the parser |
| HandshakeCases.FramesTaken | src/WebSocketConnection.cpp:417-419 | Of an accepted request that announces a body of some length, exactly so many frame bytes that come with it are taken for that body |
| HandshakeCases.BodySwallowsFrames | src/WebSocketConnection.cpp:417-419 | A concrete accepted request with Content-Length 5 for which they are |
| Handshake.ParseInitial | src/WebSocketConnection.cpp:417-419 | The buffer loses exactly the bytes that the parser took, and none once the parser is in error |
| Answering.AnswersAllowedIff | src/WebSocketConnection.cpp:54-105 | On an open connection, whatever it has sent before, the assertions of `send` and `handleClose` hold for the sends and closes of a series of answers, wherever writes complete in between, iff no answer follows a refusal |
| Answering.AnswersDrain | src/TcpConnection.cpp:79-174 | Then the connection stays open unless the last answer is a refusal, and when that has disconnected it all answers have been written |
| Answering.TwoHeads | src/WebSocketConnection.cpp:410-422 | A request without a body that keeps the connection and another one in the same read are both answered |
| Answering.RefusedThenHead | src/WebSocketConnection.cpp:54-60 | If the first of them is refused, the second answer fails the assertion of `send` |
| Answering.TwoRefused | src/TcpConnection.cpp:79-91 | Two concrete requests in one read for which that happens |
| Handover.FramesBehindHandshake | src/WebSocketConnection.cpp:410-422 | A handshake read together with the first frame bytes leaves these undecoded; what they bring about, up to the first `close()`, is what all frame bytes read so far bring about iff a further read follows or they are silent frames and an unfinished one |
| Handover.MessageWithheld | src/WebSocketConnection.cpp:410-422 | A concrete handshake and text frame in one read of which no message is delivered, while the frame alone delivers one |
| FramingSilence.SilentIff | src/WebSocketConnection.cpp:231-404 | On any bytes whatever, an open connection between two frames makes no callback, reply or close iff they are frames in order, none of them a ping or a close, that bring no message and no pong to a registered callback, and at most the beginning of one more |
| Url.SplitIsPartition | src/http_parser.c:2346-2467 | A URL that is accepted is partitioned: fields nonempty, in bounds, disjoint, in order; only delimiters outside them; a host wherever there is a schema, exactly host and port for CONNECT; the port the exact decimal value, at most 65535 |
| Url.HttpParserUrl.ParseUrl | src/http_parser.c:2346-2467 | The loop with its fields updated in place splits any URL as the specification in 16 bits does; one of at most 65535 bytes is accepted iff the specification in full accepts it, with the same fields and port, which are such a partition |
| Url.ShortSplitExact | src/http_parser.c:2346-2467 | If the authority ends within the first 65535 bytes, a URL of any length is accepted in 16 bits iff it is in full, with the same port and the fields as far as 16 bits hold them |
| Url.HttpParserUrl.ParseHost | src/http_parser.c:2259-2339 | The second pass narrows the host and sets userinfo and port as the specification says, or refuses |
| Url.ScanTiles | src/http_parser.c:2364-2420 | At every position of the first pass the fields so far tile what was read, by delimiters alone |
| Url.HostTiles | src/http_parser.c:2272-2320 | At every position of the second pass userinfo, host and port so far tile the part of the host that was read |
| Url.HttpParserUrl.ParsePort | src/http_parser.c:2442-2464 | The port is the decimal value of its digits, or refused iff that exceeds 65535; over any other bytes it is what the wrapping loop makes of them |
| Url.ShortenedIff | include/http_parser/http_parser.h:360-369 | 16 bits hold the fields iff every offset and every length is at most 65535 |
| UrlCompose.ComposeThenSplit | src/http_parser.c:2346-2467 | A URL composed of parts, with or without zone identifier and with any of userinfo, port, query and fragment empty or absent, is accepted iff its fragment does not follow the authority directly and its port is not empty and fits, and then the fields are the nonempty parts and no others, and the port is its value |
| UrlCompose.ConnectTarget | src/http_parser.c:2434-2437 | The target of CONNECT is accepted iff it has a port that fits and no userinfo, and then host and port are all that is set |
| UrlLanguage.TargetIff | src/http_parser.c:491-637 | The URL states take a target iff it is spelled of a schema and an authority, or neither, or for CONNECT an authority alone, and a path, a query and a fragment of the characters allowed in them |
| UrlAccepted.AcceptedIff | src/http_parser.c:2346-2467 | A URL is accepted iff it is composed of legal parts, in which the host is not empty, a fragment does not follow the authority directly and a port has digits and fits |
| UrlAccepted.ConnectIff | src/http_parser.c:2434-2437 | A target of CONNECT is accepted iff it is a legal authority with a port that fits and without userinfo, and behind it at most an empty query and number signs |
| UrlCompose.LongPath | src/http_parser.c:2408-2418 | A path of any length is accepted, and its length told modulo 65536 |
| UrlCompose.LongHost | src/http_parser.c:2259-2339 | A URL with a host name of any length is split in full, but in 16 bits refused iff that length is a multiple of 65536, and otherwise told with the length modulo 65536 |
| BufferModule.Buffer.EnsureSpace | include/ws/Buffer.h:83-105 | Compaction and growth leave the queue alone, the space returned is at least what was asked for and really there, growth happens only when the dead prefix is too short, and the memory stays within twice the peak plus the expansion size |
| BufferModule.Buffer.Write | include/ws/Buffer.h:108-112 | Appends to the queue |
| BufferModule.Buffer.WriteFrom | include/ws/Buffer.h:119-124 | Moves a prefix of one queue to the end of another, and counts the longer queue into the peak that bounds its memory |
| BufferModule.Buffer.Unread | include/ws/Buffer.h:64-67 | Puts back in front of the queue what was read last |
| BufferModule.Buffer.Unwrite | include/ws/Buffer.h:126-132 | Drops a suffix, or everything |
| BufferModule.Buffer.UpdateWriteIndex | include/ws/Buffer.h:148-166 | Bytes placed behind the write index become readable unmoved, or a suffix is dropped |
| BufferModule.Buffer.Shrink | include/ws/Buffer.h:181-192 | Truncates the queue and sets the capacity |
| BufferModule.Buffer.ReadTypedNumber | include/ws/Buffer.h:220-244 | Takes a number in network order off the queue |
| BufferModule.Buffer.PutUInt64 | include/ws/Buffer.h:209-214 | Appends the number in network order, and counts the longer queue into the peak |
| BufferModule.HalvesOfUInt64 | include/ws/Buffer.h:209-214 | Two 32-bit halves, the lower one masked with 36 bits, are the eight bytes of the number |
| Bytes.BigEndianRoundTrip | include/ws/Buffer.h:199-244 | Reading what was written in network order is the identity on every value that fits |
| Bytes.BigEndianAt | include/ws/Buffer.h:199-244 | In network order the most significant byte comes first: every byte is the digit of its place in base 256 |
| Bytes.XorIff | src/WebSocketConnection.cpp:303-310 | `a ^ b` is the byte in which every bit is set iff it is set in exactly one of the two |
| Bytes.XorInvolution | src/WebSocketConnection.cpp:303-310 | Masking a byte twice with one key restores it |
| FramingSplit.SplitIndependence | src/WebSocketConnection.cpp:231-423 | For any stream and any cut of it into chunks, the callbacks and replies up to the first `close()` are those of one chunk; without a close the decoder also ends in the same state |
| FramingSplit.GateIsSound | src/WebSocketConnection.cpp:410-416 | Below the `wanted_` bytes an activation of `decode` would have changed nothing |
| FramingSplit.HeaderRetry | src/WebSocketConnection.cpp:245-288 | Un-reading restores a header: starting again on more input, what the first attempt left in the fields makes no difference |
| FramingSplit.DecodeThenMore | src/WebSocketConnection.cpp:231-408 | Decoding a longer input is decoding the shorter one and then parsing the rest |
| FramingFrames.DecoderRefinesReceiver | src/WebSocketConnection.cpp:300-404 | On any legal frames without a close, masked, spelled and cut in any way, the events, with every ping answered by a pong frame of its payload, are those of the receiver of RFC 6455 iff no message is completed after a control payload was left in the empty decode buffer |
| FramingFrames.PingLeaksIntoMessage | src/WebSocketConnection.cpp:381-384 | A concrete ping and message for which they are not |
| FramingFrames.ReadBack | src/WebSocketConnection.cpp:233-290 | A header in any of its three length forms, masked or not, is read back whatever the fields held before |
| FramingFrames.MaskedRoundTrip | src/WebSocketConnection.cpp:300-356 | Data messages framed with any masking keys and cut in any way are decoded to the same messages and types |
| FramingFrames.EncoderRoundTrip | src/WebSocketConnection.cpp:133-172 | What `sendMessage` wrote is decoded to the same messages and types |
| FramingFrames.CloseIsWire | src/WebSocketConnection.cpp:211-227 | The bytes that `close` sends are the wire form of a close frame with the status code as its payload |
| FramingCases.PingComesBack | src/WebSocketConnection.cpp:174-209 | What `ping` sends is a ping frame; the other side is told of it and answers with a pong frame of the same payload, which comes back as just that pong |
| FramingCases.CloseIsRepeated | src/WebSocketConnection.cpp:211-227 | The first ping or pong after a close sends the close frame once more in front of its own, and empties the output buffer |
| FramingCases.RefusedIff | src/WebSocketConnection.cpp:312-404 | A frame brings `stopRead`, a close frame with the code 1002 and its close call, and no more, iff it is a fragment of no message or one too many, a fragmented control frame or of a reserved opcode; a ping of 126 bytes or more brings them behind its callback, and nothing else does |
| FramingCases.ReservedBits | src/WebSocketConnection.cpp:236-240 | So does any frame with a reserved bit set |
| FramingCases.TextExamples | src/WebSocketConnection.cpp:133-172 | The unmasked and the masked text message of section 5.7 of RFC 6455, byte by byte, as they are written and read |
| FramingCases.FragmentExample | src/WebSocketConnection.cpp:312-356 | Its fragmented text message in two reads |
| FramingCases.PingExamples | src/WebSocketConnection.cpp:369-404 | Its ping, the answer to it, and its masked pong |
| FramingCases.BinaryExamples | src/WebSocketConnection.cpp:133-172 | Its binary messages of 256 bytes and of 64 KiB |
| FramingCases.CloseExample | src/WebSocketConnection.cpp:358-367 | An empty close frame and the bytes of the answer |
| FramingTermination.DivergesIff | src/WebSocketConnection.cpp:231-408 | In any status and on any input, between two frames, the recursion of `decode` never returns iff the input is frames that it goes on from, an empty close frame, and more |
| FramingTermination.DivergesFromHeaderIff | src/WebSocketConnection.cpp:291-407 | The same with a header already read: that of a close frame decides by itself, any other frame only passes on |
| FramingTermination.KeptHeaderAcrossCalls | src/WebSocketConnection.cpp:358-422 | With the header of a close frame kept while closing, some later call of `parse` never returns iff its payload length is 0 and `wanted_` bytes arrive |
| FramingTermination.CloseThenCalls | src/WebSocketConnection.cpp:358-422 | After a close frame with nothing behind it in its read, some later call never returns iff the connection was closing already, the frame is empty and enough bytes follow |
| FramingTermination.OversizePingThenClose | src/WebSocketConnection.cpp:358-407 | A ping that is too long closes the connection, and an empty close frame and a byte behind it still hang |
| FramingTermination.NoCloseReturns | src/WebSocketConnection.cpp:231-408 | Without a close frame `decode` returns |
| FramingTermination.EarlyReturnShields | src/WebSocketConnection.cpp:312-404 | A frame from which `decode` returns early shields it from whatever follows |
| FramingTermination.WireOfRead | src/WebSocketConnection.cpp:233-310 | Any complete header with its payload, whatever its length form, is the wire form of the frame that is read |
| Framing.AgainDescends | src/WebSocketConnection.cpp:291-407 | A recursive call of `decode` follows the consumption of input, or is one of at most two that finish a header or a close, or repeats the same state |
| Framing.StuckIff | src/WebSocketConnection.cpp:358-407 | It repeats the same state iff the header of an empty close frame was kept and the connection is no longer open |
| WebSocketConnectionModule.WebSocketConnection.Decode | src/WebSocketConnection.cpp:231-408 | The recursive method over the shared buffers has the outcome of the specification: same fields, same queues, same events, and a flag for the recursion that would not return |
| WebSocketConnectionModule.WebSocketConnection.Parse | src/WebSocketConnection.cpp:410-422 | The same for `parse` once the handshake is over |
| WebSocketConnectionModule.WebSocketConnection.UnmaskInPlace | src/WebSocketConnection.cpp:303-310 | The loop takes the exclusive-or of what lies behind the earlier payload with the rotating key, byte for byte, and touches nothing else |
| WebSocketConnectionModule.WebSocketConnection.SendMessage | src/WebSocketConnection.cpp:152-172 | Hands header and payload to the TCP connection and leaves the output buffer empty |
| WebSocketConnectionModule.WebSocketConnection.Close | src/WebSocketConnection.cpp:211-227 | Sends the close frame, stops reading unless the close is normal, and leaves the frame in the output buffer |
| WebSocketConnectionModule.WebSocketConnection.Pong | src/WebSocketConnection.cpp:194-209 | Replies with the payload behind whatever is in the output buffer, or closes when it is too long |
| Output.OutputIsFifo | src/TcpConnection.cpp:64-174 | Over every run of sends by either overload, completions and closes, before and after a close, in which no two-buffer send finds bytes queued without a write being marked as under way, the bytes accepted are those completed, outstanding and queued, in this order |
| Output.TwoBufferSendOvertakesUnless | src/TcpConnection.cpp:64-76 | From any state in order, a two-buffer send keeps the order for all payloads iff a write is marked as under way or nothing is queued |
| Output.PlaceKept | src/TcpConnection.cpp:64-91 | Before a close request, and for the one-buffer send always, that is so |
| Output.OvertakingIsReached | src/TcpConnection.cpp:64-123 | Two sends and a close request after which a two-buffer send overtakes |
| Output.LateSendIsLost | src/TcpConnection.cpp:79-174 | A run in which a byte sent after the close request is accepted and never written |
| Output.DeferredCloseDrains | src/TcpConnection.cpp:79-174 | With the one-buffer send and one close request, at most one write is outstanding, the connection is disconnected within two completions and only when all bytes accepted before the request have completed, the callback fires once and `bytesWritten_` is exact |
| Teardown.ClosedOnceAndLast | src/WebSocketConnection.cpp:358-367 | Over any reads, from an open connection in any state of the decoder, the TCP connection is closed at most once, right behind the close frame with the normal code, and nothing is sent or called after that |
| Teardown.SentIsOpen | src/TcpConnection.cpp:79-174 | A connection stays open over any sends of one buffer and completions, and all that was sent counts |
| Teardown.AnsweredIsOpen | src/WebSocketConnection.cpp:102-103 | So it is open right behind the answer to its handshake, with that write outstanding or completed |
| Teardown.TeardownDrains | src/TcpConnection.cpp:79-174 | From any such connection and whatever is read, what the decoder asks of the TCP connection meets its assertions when it is asked, wherever writes complete in between; no byte is sent too late to be written, and once the connection is disconnected all that was ever sent has been written, last of all the wire form of a close frame with the code 1000 |
| TcpConnectionModule.TcpConnection.OnWriteComplete | src/TcpConnection.cpp:139-174 | The completion callback takes the step of the specification |
| TcpConnectionModule.TcpConnection.Send | src/TcpConnection.cpp:79-91 | So does the one-buffer send |
| TcpConnectionModule.TcpConnection.SendTwo | src/TcpConnection.cpp:64-76 | So does the two-buffer send, which empties the header buffer |
| TcpConnectionModule.TcpConnection.HandleClose | src/TcpConnection.cpp:112-123 | So does a close request |
| TcpConnectionModule.TcpConnection.ReadCycle | src/TcpConnection.cpp:11-31 | Bytes that libuv puts where it was told to become readable behind those that were |

## Left out

- libuv, sockets, threads, event loops, the accept path and logging; libuv is a FIFO of writes that
  complete at some later time, and write errors are not modelled.
- Lifetime and aliasing of the memory handed to `uv_write`: a send takes the bytes as they are.
- The vector inside `Buffer` is a sequence held in a field, so that moving bytes within it is an
  assignment; iterators and raw pointers into it are not modelled. Sizes are below 2^31.
- SHA-1, Base64 and the accept key: the answer to a handshake carries the key it was given.
- `ws::String`, and callbacks of the user that call back into the connection.
- HTTP responses, `HTTP_BOTH`, lenient and non-strict parsing, pausing, callbacks that fail or that ask
  for the body to be skipped, and bodies that end with the connection.
- HttpParserModule.BufferingIndependence: which error is reported, where, and which callbacks precede
  it may depend on buffering, because pending marks are not flushed and inner loops count late; that
  there is an error does not depend on it.
- HttpParserModule.HttpParser.Execute: after an error the parser's fields are left open.
- HttpMessages.BodyConserved: CONNECT, which has no body, is left out.
- Handshake.HandoverIff: the header callbacks are taken with names and values uncut, as they are in one call, a
  folded value with one callback for every line; across calls the original
  overwrites a name instead of appending, and the second part of a value has no name.
- Handshake.ParseInitial: that `onHeaderComplete` sets the status during the call is stated on values, in
  Handover.FramesBehindHandshake, and not part of the method.
- WebSocketConnectionModule.WebSocketConnection.Parse: calls on the TCP connection are recorded as events and do
  not drive a connection object; what they do is stated on values, in Teardown.TeardownDrains.
- Teardown.TeardownDrains: sends of the application in between, which go by the results about all runs in Output.
- Url.HttpParserUrl.ParseUrl: nothing is said of the fields after a refusal.
- UTF-8 validation, minimal length forms and mandatory masking, which the code does not check.
