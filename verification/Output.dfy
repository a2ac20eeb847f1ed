/**
  The output queue and close protocol of src/TcpConnection.cpp as steps on values. libuv is a FIFO of
  writes, each of which completes, in order, at some later time; write errors are left out.
*/
module Output {
  import opened Bytes

  datatype State = Connecting | Connected | Disconnected | Disconnecting | Writing

  /**
    `pending` and `done` are libuv's side: the writes handed over but not completed, and the bytes of
    the completed ones. `closes` counts the calls of the close callback.
  */
  datatype Conn = Conn(
    state: State,
    out: seq<byte>,
    isLastWrite: bool,
    lastWrite: nat,
    bytesWritten: nat,
    pending: seq<seq<byte>>,
    done: seq<byte>,
    closes: nat)

  /** `send(const char*, size_t)`; its assertion is the precondition. */
  function Send(c: Conn, bytes: seq<byte>): Conn
    requires c.state == Writing || c.state == Connected
  {
    if c.state == Writing then c.(out := c.out + bytes)
    else c.(lastWrite := |bytes|, state := Writing, pending := c.pending + [bytes])
  }

  /** `send(Buffer&, String&&)`: header and body in one write, or behind what is queued. */
  function SendTwo(c: Conn, header: seq<byte>, body: seq<byte>): Conn {
    if c.state == Writing then c.(out := c.out + header + body)
    else c.(pending := c.pending + [header + body])
  }

  /** `handleClose`; its assertion is the precondition. */
  function HandleClose(c: Conn): Conn
    requires c.state == Writing || c.state == Connected || c.state == Connecting
  {
    if c.state == Writing then c.(state := Disconnecting)
    else c.(state := Disconnected, closes := c.closes + 1)
  }

  /** The completion callback inside `writeToUv`, for the oldest write. */
  function Complete(c: Conn): Conn
    requires c.pending != []
  {
    var c1 := c.(done := c.done + c.pending[0], pending := c.pending[1..],
      bytesWritten := c.bytesWritten + c.lastWrite, lastWrite := 0);
    if c.isLastWrite then HandleClose(c1.(state := Connected)).(isLastWrite := false)
    else if c.state == Disconnecting && c.out == [] then HandleClose(c1.(state := Connected))
    else
      var c2 := c1.(isLastWrite := c.state == Disconnecting, state := Connected);
      if c.out == [] then c2 else Send(c2, c.out).(out := [])
  }

  // ---- Runs ------------------------------------------------------------------------------------

  datatype Step = SendStep(bytes: seq<byte>) | SendTwoStep(header: seq<byte>, body: seq<byte>) | CompleteStep | CloseStep

  /** The step meets the assertions of the code, and only a write that was handed over completes. */
  ghost predicate Enabled(c: Conn, s: Step) {
    match s
    case SendStep(_) => c.state == Writing || c.state == Connected
    case SendTwoStep(_, _) => true
    case CompleteStep => c.pending != []
    case CloseStep => c.state == Writing || c.state == Connected || c.state == Connecting
  }

  function Apply(c: Conn, s: Step): Conn
    requires Enabled(c, s)
  {
    match s
    case SendStep(bytes) => Send(c, bytes)
    case SendTwoStep(header, body) => SendTwo(c, header, body)
    case CompleteStep => Complete(c)
    case CloseStep => HandleClose(c)
  }

  /** A state reached by some steps, with the bytes accepted before and after the close request. */
  datatype Run = Run(c: Conn, before: seq<byte>, after: seq<byte>, closed: bool, completions: nat)

  function SentBy(s: Step): seq<byte> {
    match s
    case SendStep(bytes) => bytes
    case SendTwoStep(header, body) => header + body
    case _ => []
  }

  /** One more step; `completions` counts those since the close request. */
  function Advance(r: Run, s: Step): Run
    requires Enabled(r.c, s)
  {
    Run(Apply(r.c, s),
        if r.closed then r.before else r.before + SentBy(s),
        if r.closed then r.after + SentBy(s) else r.after,
        r.closed || s == CloseStep,
        if r.closed && s == CompleteStep then r.completions + 1 else r.completions)
  }

  /** An established connection on which nothing was sent; `lastWrite` is not initialised by the code. */
  ghost predicate Start(r: Run) {
    && r.c.state == Connected && r.c.out == [] && !r.c.isLastWrite && r.c.bytesWritten == 0
    && r.c.pending == [] && r.c.done == [] && r.c.closes == 0
    && r.before == [] && r.after == [] && !r.closed && r.completions == 0
  }

  /** `r1` is reached from `r` by `steps`, each allowed by `ok` where it is taken. */
  ghost predicate Reaches(r: Run, steps: seq<Step>, r1: Run, ok: (Run, Step) -> bool)
    decreases |steps|
  {
    if steps == [] then r1 == r
    else Enabled(r.c, steps[0]) && ok(r, steps[0]) && Reaches(Advance(r, steps[0]), steps[1..], r1, ok)
  }

  lemma ReachesNone(r: Run, ok: (Run, Step) -> bool)
    ensures Reaches(r, [], r, ok)
  {}

  /** One step in front of those that follow it. */
  lemma StepFirst(r: Run, s: Step, rest: seq<Step>, r1: Run, ok: (Run, Step) -> bool)
    requires Enabled(r.c, s) && ok(r, s) && Reaches(Advance(r, s), rest, r1, ok)
    ensures Reaches(r, [s] + rest, r1, ok)
  {
    hide Advance, Enabled;
    assert ([s] + rest)[1..] == rest;
  }

  lemma ThreeSteps(r: Run, s1: Step, s2: Step, s3: Step, ok: (Run, Step) -> bool)
    requires Enabled(r.c, s1) && ok(r, s1)
    requires var r1 := Advance(r, s1); Enabled(r1.c, s2) && ok(r1, s2)
    requires var r2 := Advance(Advance(r, s1), s2); Enabled(r2.c, s3) && ok(r2, s3)
    ensures Reaches(r, [s1, s2, s3], Advance(Advance(Advance(r, s1), s2), s3), ok)
  {
    hide Reaches, Advance, Enabled;
    var r1 := Advance(r, s1);
    var r2 := Advance(r1, s2);
    var r3 := Advance(r2, s3);
    ReachesNone(r3, ok);
    StepFirst(r2, s3, [], r3, ok);
    assert [s3] + [] == [s3];
    StepFirst(r1, s2, [s3], r3, ok);
    assert [s2] + [s3] == [s2, s3];
    StepFirst(r, s1, [s2, s3], r3, ok);
    assert [s1] + [s2, s3] == [s1, s2, s3];
  }

  /** A run behind another one. */
  lemma {:induction false} ReachesThrough(r: Run, a: seq<Step>, r1: Run, b: seq<Step>, r2: Run, ok: (Run, Step) -> bool)
    requires Reaches(r, a, r1, ok) && Reaches(r1, b, r2, ok)
    ensures Reaches(r, a + b, r2, ok)
    decreases |a|
  {
    hide Advance, Enabled;
    if a == [] {
      assert a + b == b;
    } else {
      ReachesThrough(Advance(r, a[0]), a[1..], r1, b, r2, ok);
      assert (a + b)[1..] == a[1..] + b;
    }
  }

  // ---- First in, first out ---------------------------------------------------------------------

  /** Everything accepted is completed, outstanding or queued, in this order. */
  ghost predicate InOrder(r: Run) {
    r.before + r.after == r.c.done + Concat(r.c.pending) + r.c.out
  }

  /** While the queue is used no write is started but from it, so that nothing can overtake it. */
  ghost predicate FifoInvariant(r: Run) {
    && InOrder(r)
    && (r.c.out != [] ==> r.c.state != Connected && r.c.state != Connecting)
    && (!r.closed ==> r.after == [] && (r.c.state == Writing || r.c.state == Connected) && !r.c.isLastWrite)
  }

  /** The two-buffer send, which does not look at the queue, finds a write marked as under way or nothing queued. */
  predicate KeepsPlace(r: Run, s: Step) {
    s.SendTwoStep? ==> r.c.state == Writing || r.c.out == []
  }

  lemma ConcatOne(parts: seq<seq<byte>>, last: seq<byte>)
    ensures Concat(parts + [last]) == Concat(parts) + last
  {
    ConcatAppend(parts, [last]);
    assert Concat([last]) == last + [] == last;
  }

  lemma FifoStep(r: Run, s: Step)
    requires FifoInvariant(r) && Enabled(r.c, s) && KeepsPlace(r, s)
    ensures FifoInvariant(Advance(r, s))
  {
    var c, r1 := r.c, Advance(r, s);
    match s {
      case SendStep(bytes) => QueueStep(c, bytes);
      case SendTwoStep(header, body) =>
        QueueStep(c, header + body);
        assert c.out + header + body == c.out + (header + body);
      case CompleteStep => CompleteInOrder(c);
      case CloseStep =>
    }
    Accepted(r, s);
  }

  lemma Accepted(r: Run, s: Step)
    requires Enabled(r.c, s) && (!r.closed ==> r.after == [])
    ensures var r1 := Advance(r, s); r1.before + r1.after == r.before + r.after + SentBy(s)
  {
    assert r.before + (r.after + SentBy(s)) == r.before + r.after + SentBy(s);
    assert !r.closed ==> r.before + SentBy(s) + [] == r.before + [] + SentBy(s);
  }

  lemma QueueStep(c: Conn, bytes: seq<byte>)
    ensures c.done + Concat(c.pending) + (c.out + bytes) == c.done + Concat(c.pending) + c.out + bytes
    ensures c.out == [] ==> c.done + Concat(c.pending + [bytes]) + [] == c.done + Concat(c.pending) + c.out + bytes
  {
    ConcatOne(c.pending, bytes);
  }

  lemma CompleteInOrder(c: Conn)
    requires c.pending != []
    ensures var c1 := Complete(c); c1.done + Concat(c1.pending) + c1.out == c.done + Concat(c.pending) + c.out
  {
    var rest := c.pending[1..];
    assert c.done + Concat(c.pending) == c.done + c.pending[0] + Concat(rest);
    if c.out != [] && !c.isLastWrite {
      ConcatOne(rest, c.out);
    }
  }

  /**
    Over every run of sends by either overload, before and after close requests, completions and
    closes, nothing is lost, doubled or reordered, as long as no two-buffer send finds bytes queued
    without a write being marked as under way.
  */
  lemma {:induction false} OutputIsFifo(r: Run, steps: seq<Step>, r1: Run)
    requires FifoInvariant(r) && Reaches(r, steps, r1, KeepsPlace)
    ensures FifoInvariant(r1)
    decreases |steps|
  {
    if steps != [] {
      FifoStep(r, steps[0]);
      OutputIsFifo(Advance(r, steps[0]), steps[1..], r1);
    }
  }

  lemma StartIsFifo(r: Run)
    requires Start(r)
    ensures FifoInvariant(r)
  {}

  /** Before a close request, and for the one-buffer send also after it, that is never the case. */
  lemma PlaceKept(r: Run, s: Step)
    requires FifoInvariant(r) && Enabled(r.c, s) && (!r.closed || !s.SendTwoStep?)
    ensures KeepsPlace(r, s)
  {}

  /** The condition is exact: from any state in order, a two-buffer send keeps the order for every payload iff it holds. */
  lemma TwoBufferSendOvertakesUnless(r: Run)
    requires FifoInvariant(r)
    ensures (forall header, body :: InOrder(Advance(r, SendTwoStep(header, body)))) <==>
      r.c.state == Writing || r.c.out == []
  {
    var c := r.c;
    if c.state != Writing && c.out != [] {
      var other: byte := if c.out[0] == 0 then 1 else 0;
      var r1 := Advance(r, SendTwoStep([other], []));
      ConcatOne(c.pending, [other] + []);
      Accepted(r, SendTwoStep([other], []));
      var k := |c.done + Concat(c.pending)|;
      assert (r1.before + r1.after)[k] == c.out[0];
      assert (r1.c.done + Concat(r1.c.pending) + r1.c.out)[k] == other;
      assert !InOrder(r1);
    } else {
      forall header, body
        ensures InOrder(Advance(r, SendTwoStep(header, body)))
      {
        FifoStep(r, SendTwoStep(header, body));
      }
    }
  }

  /** Such a state is reached: two sends, the second of which is queued, and a close request. */
  lemma OvertakingIsReached(r: Run) returns (r1: Run)
    requires Start(r)
    ensures Reaches(r, [SendStep([1]), SendStep([2]), CloseStep], r1, KeepsPlace)
    ensures r1.c.state == Disconnecting && r1.c.out == [2] && FifoInvariant(r1)
    ensures var r2 := Advance(r1, SendTwoStep([3], []));
      r2.before + r2.after == [1, 2, 3] && r2.c.done + Concat(r2.c.pending) + r2.c.out == [1, 3, 2]
  {
    hide Advance, Reaches, FifoInvariant, TwoQueued;
    var steps := [SendStep([1]), SendStep([2]), CloseStep];
    r1 := TwoQueued(r);
    TwoQueuedReached(r, KeepsPlace);
    assert FifoInvariant(r) by {
      StartIsFifo(r);
    }
    OutputIsFifo(r, steps, r1);
    OvertakenBy(r1, [3]);
  }

  /** The state behind two sends, the second of which is queued, and a close request. */
  function TwoQueued(r: Run): (r1: Run)
    requires Start(r)
    ensures r1.c.state == Disconnecting && r1.c.out == [2] && r1.c.pending == [[1]] && r1.c.done == []
    ensures r1.before == [1, 2] && r1.after == [] && r1.closed && !r1.c.isLastWrite && r1.completions == 0
  {
    Advance(Advance(Advance(r, SendStep([1])), SendStep([2])), CloseStep)
  }

  lemma TwoQueuedReached(r: Run, ok: (Run, Step) -> bool)
    requires Start(r) && ok(r, SendStep([1]))
    requires var ra := Advance(r, SendStep([1])); ok(ra, SendStep([2])) && ok(Advance(ra, SendStep([2])), CloseStep)
    ensures Reaches(r, [SendStep([1]), SendStep([2]), CloseStep], TwoQueued(r), ok)
  {
    hide Reaches;
    ThreeSteps(r, SendStep([1]), SendStep([2]), CloseStep, ok);
  }

  lemma OvertakenBy(r: Run, bytes: seq<byte>)
    requires r.c.state == Disconnecting && r.c.out == [2] && r.c.pending == [[1]] && r.c.done == []
    requires r.before == [1, 2] && r.after == [] && r.closed
    ensures var r2 := Advance(r, SendTwoStep(bytes, []));
      r2.before + r2.after == [1, 2] + bytes && r2.c.done + Concat(r2.c.pending) + r2.c.out == [1] + bytes + [2]
  {
    assert bytes + [] == bytes && [] + bytes == bytes;
    ConcatOne([[1]], bytes);
    assert [[1]][1..] == [];
    assert Concat([[1]]) == [1] + Concat([]) == [1];
  }

  // ---- Deferred close --------------------------------------------------------------------------

  /** Only the one-buffer send, and at most one close request. */
  predicate OneBufferOneClose(r: Run, s: Step) {
    !s.SendTwoStep? && (r.closed ==> s != CloseStep)
  }

  /** How many completions a close request still waits for. */
  function CompletionsLeft(c: Conn): nat {
    if c.state == Disconnecting then if c.out == [] then 1 else 2
    else if c.isLastWrite then 1
    else 0
  }

  /**
    At most one write is ever outstanding, `bytesWritten` counts the completed bytes, and after a
    close request the connection is either waiting for a write or disconnected, with everything
    accepted before the request completed and everything accepted after it stuck in the queue.
  */
  ghost predicate DrainInvariant(r: Run) {
    var c := r.c;
    && c.bytesWritten == |c.done|
    && (!r.closed ==>
      && r.after == [] && !c.isLastWrite && c.closes == 0 && r.completions == 0
      && (c.state == Connected || c.state == Writing)
      && (c.state == Connected ==> c.pending == [] && c.out == [] && c.done == r.before)
      && (c.state == Writing ==> OneWrite(c) && c.done + c.pending[0] + c.out == r.before))
    && (r.closed ==>
      && (c.state == Disconnecting || c.state == Writing || c.state == Disconnected)
      && (c.state != Disconnected ==> OneWrite(c) && c.closes == 0 && r.completions + CompletionsLeft(c) <= 2)
      && (c.state == Disconnecting ==> !c.isLastWrite && r.after == [] && c.done + c.pending[0] + c.out == r.before)
      && (c.state == Writing ==> c.isLastWrite && c.done + c.pending[0] == r.before && c.out == r.after)
      && (c.state == Disconnected ==>
        && c.pending == [] && c.done == r.before && c.out == r.after && c.closes == 1 && !c.isLastWrite))
  }

  ghost predicate OneWrite(c: Conn) {
    |c.pending| == 1 && c.lastWrite == |c.pending[0]|
  }

  lemma DrainStep(r: Run, s: Step)
    requires DrainInvariant(r) && Enabled(r.c, s) && OneBufferOneClose(r, s)
    ensures DrainInvariant(Advance(r, s))
  {
    var c := r.c;
    match s {
      case SendStep(bytes) =>
        if !r.closed && c.state == Writing {
          assert c.done + c.pending[0] + (c.out + bytes) == r.before + bytes;
        } else if !r.closed {
          assert c.done + bytes + [] == r.before + bytes;
        }
      case CompleteStep =>
        assert c.pending[1..] == [];
        if c.out == [] {
          assert c.done + c.pending[0] + [] == c.done + c.pending[0];
        } else {
          assert c.done + c.pending[0] + c.out + [] == c.done + c.pending[0] + c.out;
        }
      case CloseStep =>
        assert r.before + [] == r.before;
    }
  }

  lemma {:induction false} DrainRun(r: Run, steps: seq<Step>, r1: Run)
    requires DrainInvariant(r) && Reaches(r, steps, r1, OneBufferOneClose)
    ensures DrainInvariant(r1)
    decreases |steps|
  {
    if steps != [] {
      DrainStep(r, steps[0]);
      DrainRun(Advance(r, steps[0]), steps[1..], r1);
    }
  }

  /**
    Deferred close drains. With the one-buffer send only and one close request: the connection is
    disconnected after at most two completions, a write is outstanding until then, and the close
    callback fires exactly once; by then every byte accepted before the request has completed, and
    all accepted bytes have iff nothing was sent after the request.
  */
  lemma DeferredCloseDrains(r: Run, steps: seq<Step>, r1: Run)
    requires Start(r) && Reaches(r, steps, r1, OneBufferOneClose)
    ensures r1.c.bytesWritten == |r1.c.done| && |r1.c.pending| <= 1
    ensures r1.c.state == Disconnected ==> r1.closed && r1.c.done == r1.before
    ensures r1.c.state == Disconnected ==> (r1.c.done == r1.before + r1.after <==> r1.after == [])
    ensures r1.closed && r1.c.state != Disconnected ==> r1.c.pending != [] && r1.completions < 2
    ensures r1.c.closes == if r1.c.state == Disconnected then 1 else 0
  {
    DrainRun(r, steps, r1);
    if r1.after == [] {
      assert r1.before + r1.after == r1.before;
    } else {
      assert |r1.before + r1.after| > |r1.before|;
    }
  }

  ghost predicate InLastWrite(r: Run) {
    r.closed && r.c.state == Writing && r.c.isLastWrite && r.c.out == [] && |r.c.pending| == 1
  }

  /** The completion behind the two sends and the close request starts the last write. */
  lemma LastWrite(r: Run)
    requires Start(r)
    ensures var r4 := Advance(TwoQueued(r), CompleteStep);
      InLastWrite(r4) && r4.c.pending == [[2]] && r4.c.done == [1] && r4.before == [1, 2] && r4.after == []
  {
    hide TwoQueued;
    assert [[1]][1..] == [] && [] + [1] == [1];
  }

  lemma AfterLastWrite(r: Run, bytes: seq<byte>)
    requires InLastWrite(r)
    ensures var r1 := Advance(r, SendStep(bytes));
      && Enabled(r1.c, CompleteStep) && r1.after == r.after + bytes && r1.before == r.before
      && var r2 := Advance(r1, CompleteStep);
         && r2.c.state == Disconnected && r2.c.out == bytes && r2.c.done == r.c.done + r.c.pending[0]
         && r2.before == r1.before && r2.after == r1.after
  {}

  /** Such a send is reached: it falls into the last write, is accepted, and never gets out of the queue. */
  lemma LateSendIsLost(r: Run) returns (r1: Run)
    requires Start(r)
    ensures Reaches(r, [SendStep([1]), SendStep([2]), CloseStep] + [CompleteStep, SendStep([3]), CompleteStep], r1, OneBufferOneClose)
    ensures r1.c.state == Disconnected && r1.before + r1.after == [1, 2, 3] && r1.c.done == [1, 2] && r1.c.out == [3]
  {
    hide Advance, Reaches, TwoQueued;
    var r3 := TwoQueued(r);
    TwoQueuedAllowed(r);
    LastWrite(r);
    var r4 := Advance(r3, CompleteStep);
    AfterLastWrite(r4, [3]);
    var r5 := Advance(r4, SendStep([3]));
    r1 := Advance(r5, CompleteStep);
    ThreeSteps(r3, CompleteStep, SendStep([3]), CompleteStep, OneBufferOneClose);
    ReachesThrough(r, [SendStep([1]), SendStep([2]), CloseStep], r3, [CompleteStep, SendStep([3]), CompleteStep], r1, OneBufferOneClose);
  }

  lemma TwoQueuedAllowed(r: Run)
    requires Start(r)
    ensures Reaches(r, [SendStep([1]), SendStep([2]), CloseStep], TwoQueued(r), OneBufferOneClose)
  {
    hide Reaches;
    TwoQueuedReached(r, OneBufferOneClose);
  }
}
