/**
  The answers to requests as steps of the TCP connection: an accepted request sends its answer, a refused
  one sends its answer and closes. After that the parser goes on with what was read, and so may find the
  head of another request to answer.
*/
module Answering {
  import opened Bytes
  import opened HttpTypes
  import opened HttpStep
  import opened HttpRun
  import opened HttpHeaders
  import opened HttpHead
  import opened HttpRequest
  import opened HttpMessages
  import opened Handshake
  import Output
  import Teardown

  const BAD_REQUEST: string := "HTTP/1.1 400 Bad Request\r\n\r\n"

  /** What an answer asks of the TCP connection; `accept` gives the text that carries the accept key. */
  function Served(a: Answer, accept: seq<byte> -> seq<byte>): seq<Output.Step> {
    match a
    case BadRequest => [Output.SendStep(Ascii(BAD_REQUEST)), Output.CloseStep]
    case SwitchingProtocols(key) => [Output.SendStep(accept(key))]
    case Aborted => []
  }

  function AllServed(answers: seq<Answer>, accept: seq<byte> -> seq<byte>): seq<Output.Step> {
    if answers == [] then [] else Served(answers[0], accept) + AllServed(answers[1..], accept)
  }

  /** No answer follows a refusal. */
  predicate RefusalLast(answers: seq<Answer>) {
    forall i :: 0 <= i < |answers| - 1 ==> answers[i] != BadRequest
  }

  /** Every step meets the assertions of the code when it is taken. */
  ghost predicate AllEnabled(r: Output.Run, steps: seq<Output.Step>)
    decreases |steps|
  {
    steps != [] ==> Output.Enabled(r.c, steps[0]) && AllEnabled(Output.Advance(r, steps[0]), steps[1..])
  }

  // ---- Answers in order ------------------------------------------------------------------------

  lemma {:induction false} ServedInOrder(answers: seq<Answer>, accept: seq<byte> -> seq<byte>)
    requires RefusalLast(answers)
    ensures Teardown.SendsThenClose(AllServed(answers, accept))
    ensures Output.CloseStep in AllServed(answers, accept) ==> answers != [] && answers[|answers| - 1] == BadRequest
  {
    if answers != [] {
      var rest, steps := AllServed(answers[1..], accept), AllServed(answers, accept);
      assert RefusalLast(answers[1..]) by {
        assert forall i :: 0 <= i < |answers[1..]| ==> answers[1..][i] == answers[i + 1];
      }
      ServedInOrder(answers[1..], accept);
      var k := |Served(answers[0], accept)|;
      assert |answers| > 1 ==> answers[0] != BadRequest;
      assert |answers| == 1 ==> rest == [];
      forall i | 0 <= i < |steps|
        ensures steps[i].SendStep? || (steps[i] == Output.CloseStep && i == |steps| - 1)
      {
        if i >= k {
          assert steps[i] == rest[i - k];
        }
      }
    }
  }

  lemma {:induction false} ReachedEnabled(r: Output.Run, steps: seq<Output.Step>, r1: Output.Run)
    requires Output.Reaches(r, steps, r1, Output.OneBufferOneClose)
    ensures AllEnabled(r, steps)
    decreases |steps|
  {
    hide Output.Advance, Output.Enabled, Output.OneBufferOneClose;
    if steps != [] {
      ReachedEnabled(Output.Advance(r, steps[0]), steps[1..], r1);
    }
  }

  /**
    As long as no answer follows a refusal, all that the answers ask of the TCP connection is allowed,
    wherever libuv completes the writes in between, and once the connection is disconnected they have all
    been written, behind whatever was sent before.
  */
  lemma AnswersDrain(r: Output.Run, answers: seq<Answer>, accept: seq<byte> -> seq<byte>, steps: seq<Output.Step>)
      returns (r1: Output.Run)
    requires Teardown.Open(r) && RefusalLast(answers)
    requires Teardown.Asked(steps) == AllServed(answers, accept) && Teardown.WritesComplete(r, steps)
    ensures Output.Reaches(r, steps, r1, Output.OneBufferOneClose) && AllEnabled(r, steps)
    ensures r1.after == [] && r1.before == r.before + Teardown.Flow(Teardown.Asked(steps))
    ensures r1.closed ==> answers != [] && answers[|answers| - 1] == BadRequest
    ensures !r1.closed ==> Teardown.Open(r1)
    ensures r1.c.state == Output.Disconnected ==> r1.closed && r1.c.done == r1.before && r1.c.closes == 1
  {
    hide Output.DrainInvariant, Output.Reaches, RefusalLast;
    ServedInOrder(answers, accept);
    Teardown.OpenSoFar(r);
    r1 := Teardown.InOrderIsEnabled(r, steps);
    ReachedEnabled(r, steps, r1);
    Output.DrainRun(r, steps, r1);
    Teardown.Drained(r1);
  }

  // ---- An answer behind a refusal --------------------------------------------------------------

  /** Behind a refusal there is no state in which `send` may be called before the next completion. */
  lemma RefusedIsDeaf(r: Output.Run)
    requires Teardown.Open(r)
    ensures Output.Enabled(r.c, Output.SendStep(Ascii(BAD_REQUEST)))
    ensures var r1 := Output.Advance(r, Output.SendStep(Ascii(BAD_REQUEST)));
      Output.Enabled(r1.c, Output.CloseStep) && Output.Advance(r1, Output.CloseStep).c.state == Output.Disconnecting
  {}

  /** Then the assertion of `send` fails at the answer behind the refusal. */
  lemma {:induction false} RefusedThenStuck(r: Output.Run, answers: seq<Answer>, accept: seq<byte> -> seq<byte>)
    requires Teardown.Open(r) && !RefusalLast(answers) && Aborted !in answers
    ensures !AllEnabled(r, AllServed(answers, accept))
    decreases |answers|
  {
    var a, rest, steps := answers[0], AllServed(answers[1..], accept), AllServed(answers, accept);
    assert answers[1..][0] == answers[1] && answers[1] in answers;
    match a {
      case BadRequest =>
        RefusedIsDeaf(r);
        var r1 := Output.Advance(r, steps[0]);
        var r2 := Output.Advance(r1, Output.CloseStep);
        assert steps[1..][0] == Output.CloseStep && steps[1..][1..] == rest;
        assert rest[0].SendStep? by {
          NextSends(answers[1..], accept);
        }
        assert !Output.Enabled(r2.c, rest[0]);
        assert !AllEnabled(r2, rest);
        assert !AllEnabled(r1, steps[1..]);
      case SwitchingProtocols(key) =>
        hide Teardown.Open, Output.Enabled, Output.Advance;
        assert steps[1..] == rest;
        TailNotLast(answers);
        if Output.Enabled(r.c, steps[0]) {
          Teardown.OpenStep(r, steps[0]);
          RefusedThenStuck(Output.Advance(r, steps[0]), answers[1..], accept);
        }
      case Aborted => assert false;
    }
  }

  lemma NextSends(answers: seq<Answer>, accept: seq<byte> -> seq<byte>)
    requires answers != [] && answers[0] != Aborted
    ensures AllServed(answers, accept) != [] && AllServed(answers, accept)[0].SendStep?
  {}

  lemma TailNotLast(answers: seq<Answer>)
    requires !RefusalLast(answers) && answers[0] != BadRequest && Aborted !in answers
    ensures !RefusalLast(answers[1..]) && Aborted !in answers[1..]
  {
    var i :| 0 <= i < |answers| - 1 && answers[i] == BadRequest;
    assert answers[1..][i - 1] == answers[i];
  }

  lemma {:induction false} OnlyAsked(answers: seq<Answer>, accept: seq<byte> -> seq<byte>)
    ensures Output.CompleteStep !in AllServed(answers, accept)
  {
    if answers != [] {
      OnlyAsked(answers[1..], accept);
    }
  }

  lemma {:induction false} NoCompletions(r: Output.Run, steps: seq<Output.Step>)
    requires Output.CompleteStep !in steps
    ensures Teardown.Asked(steps) == steps && Teardown.WritesComplete(r, steps)
    decreases |steps|
  {
    hide Output.Advance, Output.Enabled;
    if steps != [] {
      assert steps[0] != Output.CompleteStep;
      if Output.Enabled(r.c, steps[0]) {
        NoCompletions(Output.Advance(r, steps[0]), steps[1..]);
      } else {
        AskedAll(steps[1..]);
      }
    }
  }

  lemma {:induction false} AskedAll(steps: seq<Output.Step>)
    requires Output.CompleteStep !in steps
    ensures Teardown.Asked(steps) == steps
  {
    if steps != [] {
      AskedAll(steps[1..]);
    }
  }

  /**
    On an open connection the assertions of `send` and `handleClose` hold for a series of answers,
    wherever writes complete in between, iff no answer follows a refusal. In one read no write completes
    in between, and then an answer behind a refusal always fails.
  */
  lemma AnswersAllowedIff(r: Output.Run, answers: seq<Answer>, accept: seq<byte> -> seq<byte>)
    requires Teardown.Open(r) && Aborted !in answers
    ensures AllEnabled(r, AllServed(answers, accept)) <==> RefusalLast(answers)
    ensures RefusalLast(answers) <==>
      forall steps :: Teardown.Asked(steps) == AllServed(answers, accept) && Teardown.WritesComplete(r, steps) ==> AllEnabled(r, steps)
  {
    hide Teardown.Open, AllEnabled, RefusalLast;
    OnlyAsked(answers, accept);
    NoCompletions(r, AllServed(answers, accept));
    if RefusalLast(answers) {
      forall steps | Teardown.Asked(steps) == AllServed(answers, accept) && Teardown.WritesComplete(r, steps)
        ensures AllEnabled(r, steps)
      {
        var r1 := AnswersDrain(r, answers, accept, steps);
      }
    } else {
      RefusedThenStuck(r, answers, accept);
    }
  }

  // ---- Two requests in one read ----------------------------------------------------------------

  lemma {:induction false} UnansweredBehind(a: seq<Event>, b: seq<Event>)
    requires forall e :: e in b ==> !e.HeadersComplete?
    ensures Answers(a + b) == Answers(a)
  {
    hide CollectedBy, OnHeaderComplete;
    if b == [] {
      assert a + b == a;
    } else {
      assert (a + b)[..|a + b| - 1] == a + b[..|b| - 1];
      UnansweredBehind(a, b[..|b| - 1]);
    }
  }

  lemma CallsBeforePlain(r: Request)
    ensures forall e :: e in CallsBefore(r) ==> !e.HeadersComplete?
  {
    HeaderCallsData(r.headers);
  }

  /** One more request behind any callbacks gets one more answer, unless an assertion fails. */
  lemma OneMoreAnswer(before: seq<Event>, r: Request, complete: bool)
    requires CollectedBy(before).named && Named(r.headers)
    ensures var calls := before + AllCalls(r, complete);
      && |Answers(calls)| == |Answers(before)| + 1 && Answers(calls)[..|Answers(before)|] == Answers(before)
      && CollectedBy(calls).named
  {
    hide OnHeaderComplete, CollectedBy, CallsBefore, Answers, Named, Switches, SizingTold;
    var a, told := before + CallsBefore(r), before + CallsBefore(r) + [HeadersTold(r)];
    CallsBeforePlain(r);
    UnansweredBehind(before, CallsBefore(r));
    NamedBehind(before, r);
    HeadAnswers(a, HeadersTold(r));
    if complete {
      UnansweredBehind(told, [MessageComplete]);
      TellsNothing(told, MessageComplete);
      assert before + AllCalls(r, complete) == told + [MessageComplete];
    } else {
      assert before + AllCalls(r, complete) == told;
    }
  }

  lemma HeadAnswers(calls: seq<Event>, e: Event)
    requires CollectedBy(calls).named && e.HeadersComplete?
    ensures CollectedBy(calls + [e]).named
    ensures |Answers(calls + [e])| == |Answers(calls)| + 1 && Answers(calls + [e])[..|Answers(calls)|] == Answers(calls)
  {
    hide OnHeaderComplete, CollectedBy;
    TellsNothing(calls, e);
    assert (calls + [e])[..|calls|] == calls;
  }

  lemma TellsNothing(calls: seq<Event>, e: Event)
    requires !e.Data?
    ensures CollectedBy(calls + [e]) == CollectedBy(calls)
  {
    assert (calls + [e])[..|calls|] == calls;
  }

  lemma NamedBehind(before: seq<Event>, r: Request)
    requires CollectedBy(before).named && Named(r.headers)
    ensures CollectedBy(before + CallsBefore(r)).named
  {
    hide Named, HeaderCalls;
    var line := [MessageBegin, Data(Url, r.target)];
    assert before + CallsBefore(r) == before + line + HeaderCalls(r.headers);
    CollectAppend(Collected([], map[], true), before + line, HeaderCalls(r.headers));
    CollectAppend(Collected([], map[], true), before, line);
    CollectTwo(CollectedBy(before), MessageBegin, Data(Url, r.target));
    NamedIff(CollectedBy(before + line), r.headers);
  }

  /** A request without a body that keeps the connection. */
  predicate GoesOn(r: Request) {
    var m := Message(r, Nothing);
    LegalMessage(m) && |Wire(r)| <= MAX_HEADER_SIZE && StaysOpen(m)
  }

  /** It leaves the parser between two messages, with nothing counted. */
  lemma ReadyForMore(r: Request)
    requires GoesOn(r)
    ensures Good(INITIAL)
    ensures var head := Over(Live(INITIAL, [], 0), Wire(r));
      && head.Live? && head.q.state == StartReq && head.q.nread == 0 && head.n == |Wire(r)|
      && head.trace == EmitAll([], AllCalls(r, true))
  {
    hide Good, LegalTarget, AllAcceptable, LegalSpacing, Wire, EmitAll, AllCalls, Over, Any, StaysOpen, MessageRead, NewMessage, SizeOf;
    InitialIsGood();
    var m := Message(r, Nothing);
    HeadOver(INITIAL, [], 0, r);
    OneMessage(INITIAL, [], 0, m);
    NoBodyWire();
    assert Wire(r) + [] == Wire(r);
    OpenEnd(Over(Live(INITIAL, [], 0), Wire(r)), [], 0, m);
    OpenIsLive(m);
  }

  lemma OpenIsLive(m: Message)
    requires StaysOpen(m)
    ensures !Switches(m.request)
  {}

  /** Two requests in one read: the callbacks are those of the one behind those of the other, and both are answered. */
  lemma TwoHeads(r1: Request, r2: Request)
    requires GoesOn(r1) && LegalRequest(r2) && |Wire(r2)| <= MAX_HEADER_SIZE && Named(r1.headers) && Named(r2.headers)
    ensures Good(INITIAL)
    ensures var run, calls := Over(Live(INITIAL, [], 0), Wire(r1) + Wire(r2)), AllCalls(r1, true) + AllCalls(r2, Completes(r2));
      && !run.Failed? && run.n == |Wire(r1)| + |Wire(r2)| && run.trace == EmitAll([], calls)
      && |Answers(calls)| == 2 && Answers(calls)[0] == AnswerTo(r1)
  {
    hide Good, LegalTarget, AllAcceptable, LegalSpacing, Wire, EmitAll, AllCalls, Over, Named, Answers, AnswerTo, GoesOn, CollectedBy,
      Switches, Completes, Any;
    LegalTwice(r1, r2);
    ReadyForMore(r1);
    var start := Live(INITIAL, [], 0);
    OverAppend(start, Wire(r1), Wire(r2));
    var head := Over(start, Wire(r1));
    HeadOver(head.q, head.trace, head.n, r2);
    EmitAllAppend([], AllCalls(r1, true), AllCalls(r2, Completes(r2)));
    HeadAnswered(r1, true);
    FirstIsNamed(r1);
    OneMoreAnswer(AllCalls(r1, true), r2, Completes(r2));
  }

  lemma FirstIsNamed(r: Request)
    requires Named(r.headers)
    ensures CollectedBy(AllCalls(r, true)).named && AnswerTo(r) != Aborted
  {
    hide Named, AllCalls, CallsBefore, Answers, OnHeaderComplete;
    LineCollected(r);
    assert CollectedBy([]).named;
    OneMoreAnswer([], r, true);
    assert [] + AllCalls(r, true) == AllCalls(r, true);
  }

  /** So a refused request and any other head in one read fail the assertion of `send`. */
  lemma RefusedThenHead(r: Output.Run, r1: Request, r2: Request, accept: seq<byte> -> seq<byte>)
    requires Teardown.Open(r) && GoesOn(r1) && AnswerTo(r1) == BadRequest
    requires LegalRequest(r2) && |Wire(r2)| <= MAX_HEADER_SIZE && Named(r2.headers)
    ensures var calls := AllCalls(r1, true) + AllCalls(r2, Completes(r2)); !AllEnabled(r, AllServed(Answers(calls), accept))
  {
    hide Teardown.Open, GoesOn, AllCalls, Answers, AllEnabled, AllServed, LegalRequest, Named, Completes, Judged;
    AcceptedIff(r1);
    LegalTwice(r1, r2);
    TwoHeads(r1, r2);
    var answers := Answers(AllCalls(r1, true) + AllCalls(r2, Completes(r2)));
    assert answers[0] == BadRequest && 0 < |answers| - 1;
    AnswersAllowedIff(r, answers, accept);
  }

  lemma LegalTwice(r1: Request, r2: Request)
    requires GoesOn(r1) && LegalRequest(r2)
    ensures LegalRequest(r1)
  {}

  const PLAIN_POST: Request := Request(POST, [47], Http, 1, 1, TIGHT, false, [], false)

  /** Two plain requests with POST are such a read. */
  lemma TwoRefused(r: Output.Run, accept: seq<byte> -> seq<byte>)
    requires Teardown.Open(r)
    ensures Good(INITIAL)
    ensures var run := Over(Live(INITIAL, [], 0), Wire(PLAIN_POST) + Wire(PLAIN_POST));
      var calls := AllCalls(PLAIN_POST, true) + AllCalls(PLAIN_POST, true);
      && !run.Failed? && run.trace == EmitAll([], calls) && |Answers(calls)| == 2 && Answers(calls)[0] == BadRequest
      && !AllEnabled(r, AllServed(Answers(calls), accept))
  {
    hide Teardown.Open, GoesOn, AllCalls, Answers, AllEnabled, AllServed, LegalRequest, Over, EmitAll, Wire, Good, AnswerTo;
    PostGoesOn();
    PostRefused();
    TwoHeads(PLAIN_POST, PLAIN_POST);
    RefusedThenHead(r, PLAIN_POST, PLAIN_POST, accept);
  }

  lemma PostGoesOn()
    ensures GoesOn(PLAIN_POST) && LegalRequest(PLAIN_POST) && |Wire(PLAIN_POST)| <= MAX_HEADER_SIZE
    ensures Completes(PLAIN_POST) && Named(PLAIN_POST.headers)
  {
    PathIsLegal(POST, [47]);
    assert |MethodString(POST)| == 4;
  }

  lemma PostRefused()
    ensures AnswerTo(PLAIN_POST) == BadRequest
  {
    LineCollected(PLAIN_POST);
  }
}
