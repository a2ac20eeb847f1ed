/**
  `http_parser_execute` as the loop it is: marks into the caller's buffer, inner loops that run
  through names, values and bodies many bytes at a time, and header bytes counted in bulk. It is
  proved to do what the byte-wise run of HttpRun does.
*/
module HttpExecute {
  import opened Bytes
  import opened HttpTypes
  import opened HttpStep
  import opened HttpRun
  import HttpFeed

  // ---- Marks -----------------------------------------------------------------------------------

  /** The data marks, as positions in the input; `None` is the null pointer. */
  datatype Marks = Marks(field: Option<nat>, value: Option<nat>, url: Option<nat>, body: Option<nat>)
  {
    function Get(k: Kind): Option<nat> {
      match k
      case Field => field
      case Value => value
      case Url => url
      case Body => body
    }

    function With(k: Kind, m: Option<nat>): Marks {
      match k
      case Field => this.(field := m)
      case Value => this.(value := m)
      case Url => this.(url := m)
      case Body => this.(body := m)
    }
  }

  const NO_MARKS: Marks := Marks(None, None, None, None)

  /** Lines 684 to 707: the marks a call starts with. */
  function StartMarks(s: State): Marks {
    match Collects(s)
    case Some(k) => NO_MARKS.With(k, Some(0))
    case None => NO_MARKS
  }

  /**
    The mark invariant at position `p` of `len`: the state says which mark is set, so there is at
    most one, and it is inside the input. Only a body mark may outlive its state, to the CR after
    a chunk.
  */
  ghost predicate MarksFit(s: State, marks: Marks, p: nat, len: nat) {
    match Collects(s)
    case Some(k) =>
      && marks.Get(k).Some? && (marks.Get(k).value < p || marks.Get(k).value == p == 0)
      && marks == NO_MARKS.With(k, marks.Get(k))
    case None =>
      || marks == NO_MARKS
      || (&& (s.ChunkDataAlmostDone? || (BodyState(s) && p == len))
          && marks.body.Some? && marks.body.value < p && marks == NO_MARKS.With(Body, marks.body))
  }

  /** The trace once the data behind a mark, if any, is delivered. */
  function Pending(trace: seq<Event>, k: Kind, m: Option<nat>, data: seq<byte>, p: nat): seq<Event>
    requires p <= |data|
  {
    if m.Some? && m.value < p then Emit(trace, Data(k, data[m.value..p])) else trace
  }

  function AllPending(trace: seq<Event>, marks: Marks, data: seq<byte>, p: nat): seq<Event>
    requires p <= |data|
  {
    Pending(Pending(Pending(Pending(trace, Field, marks.field, data, p), Value, marks.value, data, p),
                    Url, marks.url, data, p), Body, marks.body, data, p)
  }

  lemma OnePending(trace: seq<Event>, k: Kind, m: Option<nat>, data: seq<byte>, p: nat)
    requires p <= |data|
    ensures AllPending(trace, NO_MARKS.With(k, m), data, p) == Pending(trace, k, m, data, p)
  {}

  /** One more byte behind a mark. */
  lemma PendingMore(trace: seq<Event>, k: Kind, m: nat, data: seq<byte>, p: nat)
    requires m <= p < |data|
    ensures Emit(Pending(trace, k, Some(m), data, p), Data(k, [data[p]])) == Pending(trace, k, Some(m), data, p + 1)
    ensures Emit(Pending(trace, k, Some(m), data, p), Data(k, [])) == Emit(trace, Data(k, data[m..p]))
  {
    assert data[m..p] + [data[p]] == data[m..p + 1];
    if m == p {
      assert data[m..p] == [] && data[m..p + 1] == [data[p]];
    } else {
      EmitData(trace, k, data[m..p], [data[p]]);
      EmitData(trace, k, data[m..p], []);
      assert data[m..p] + [] == data[m..p];
    }
  }

  /** The events emitted so far, with one more. */
  lemma EmitOneMore(t0: seq<Event>, events: seq<Event>, e: Event)
    ensures EmitAll(t0, events + [e]) == Emit(EmitAll(t0, events), e)
  {
    EmitAllAppend(t0, events, [e]);
    EmitAllOne(EmitAll(t0, events), e);
  }

  // ---- The mark macros -------------------------------------------------------------------------

  /** What an arm's MARK and CALLBACK_DATA do to the marks and the callbacks made. */
  function MarksAfter(act: MarkAct, marks: Marks, p: nat): Marks {
    match act
    case Mark(k) => if marks.Get(k).None? then marks.With(k, Some(p)) else marks
    case Flush(k) => marks.With(k, None)
    case MarkFlush(k) => marks.With(k, None)
    case FlushWith(k) => marks.With(k, None)
    case FlushIfSet(k) => marks.With(k, None)
    case _ => marks
  }

  function DataAfter(act: MarkAct, marks: Marks, data: seq<byte>, p: nat): seq<Event>
    requires p < |data| && forall k :: marks.Get(k).Some? ==> marks.Get(k).value <= p
  {
    match act
    case Flush(k) => Slice(k, marks.Get(k), data, p)
    case FlushIfSet(k) => Slice(k, marks.Get(k), data, p)
    case MarkFlush(k) => Slice(k, Some(if marks.Get(k).Some? then marks.Get(k).value else p), data, p)
    case FlushWith(k) => Slice(k, Some(if marks.Get(k).Some? then marks.Get(k).value else p), data, p + 1)
    case _ => []
  }

  function Slice(k: Kind, m: Option<nat>, data: seq<byte>, p: nat): seq<Event>
    requires p <= |data| && (m.Some? ==> m.value <= p)
  {
    if m.Some? then [Data(k, data[m.value..p])] else []
  }

  lemma MarksInside(s: State, marks: Marks, p: nat, len: nat)
    requires MarksFit(s, marks, p, len)
    ensures forall k :: marks.Get(k).Some? ==> marks.Get(k).value <= p
  {}

  /** The original's assertion where it returns: no two marks are set. */
  lemma AtMostOneMark(s: State, marks: Marks, p: nat, len: nat)
    requires MarksFit(s, marks, p, len)
    ensures forall k, l :: marks.Get(k).Some? && marks.Get(l).Some? ==> k == l
    ensures forall k :: marks.Get(k).Some? && !BodyState(s) && s != ChunkDataAlmostDone ==> Collects(s) == Some(k)
  {}

  /** `MarksFit` names the one mark that may be set, so `AllPending` is about that one only. */
  lemma PendingOfState(s: State, marks: Marks, trace: seq<Event>, data: seq<byte>, p: nat)
    requires p <= |data| && MarksFit(s, marks, p, |data|)
    ensures Collects(s).Some? ==>
      AllPending(trace, marks, data, p) == Pending(trace, Collects(s).value, marks.Get(Collects(s).value), data, p)
    ensures Collects(s).None? ==> AllPending(trace, marks, data, p) == Pending(trace, Body, marks.body, data, p)
  {
    if Collects(s).Some? {
      OnePending(trace, Collects(s).value, marks.Get(Collects(s).value), data, p);
    } else {
      OnePending(trace, Body, marks.body, data, p);
    }
  }

  ghost predicate MacroDelivers(
      act: MarkAct, to: State, marks: Marks, trace: seq<Event>, data: seq<byte>, p: nat, next: nat)
    requires p < |data| && next <= |data| && forall k :: marks.Get(k).Some? ==> marks.Get(k).value <= p
  {
    var marks' := MarksAfter(act, marks, p);
    && MarksFit(to, marks', next, |data|)
    && AllPending(EmitAll(trace, DataAfter(act, marks, data, p)), marks', data, next)
       == EmitAll(AllPending(trace, marks, data, p), OwnData(act, data[p]))
  }

  lemma KeepDelivers(from: State, to: State, k: Kind, marks: Marks, trace: seq<Event>, data: seq<byte>, p: nat)
    requires p < |data| && MarksFit(from, marks, p, |data|)
    requires Collects(from) == Some(k) && Collects(to) == Some(k)
    ensures forall k :: marks.Get(k).Some? ==> marks.Get(k).value <= p
    ensures MacroDelivers(Keep(k), to, marks, trace, data, p, p + 1)
  {
    hide Emit, Pending, AllPending;
    var m := marks.Get(k);
    MarksInside(from, marks, p, |data|);
    OnePending(trace, k, m, data, p);
    OnePending(trace, k, m, data, p + 1);
    PendingMore(trace, k, m.value, data, p);
    EmitAllOne(Pending(trace, k, m, data, p), Data(k, [data[p]]));
  }

  lemma NothingMarked(s: State, marks: Marks, p: nat, len: nat)
    requires NoData(s) && !BodyState(s) && MarksFit(s, marks, p, len)
    ensures marks == NO_MARKS
  {}

  lemma FirstMarked(s: State, k: Kind, p: nat, len: nat)
    requires Collects(s) == Some(k)
    ensures MarksFit(s, NO_MARKS.With(k, Some(p)), p + 1, len)
  {}

  lemma MarkDelivers(from: State, to: State, k: Kind, marks: Marks, trace: seq<Event>, data: seq<byte>, p: nat)
    requires p < |data| && MarksFit(from, marks, p, |data|)
    requires NoData(from) && !BodyState(from) && Collects(to) == Some(k)
    ensures forall k :: marks.Get(k).Some? ==> marks.Get(k).value <= p
    ensures MacroDelivers(Mark(k), to, marks, trace, data, p, p + 1)
  {
    hide Emit, EmitAll, AllPending, Pending, MarksFit;
    NothingMarked(from, marks, p, |data|);
    FirstMarked(to, k, p, |data|);
    NonePending(trace, data, p);
    EmitAllNone(trace);
    OnePending(trace, k, Some(p), data, p + 1);
    JustPending(trace, k, data, p);
    EmitAllOne(trace, Data(k, [data[p]]));
  }

  lemma JustPending(trace: seq<Event>, k: Kind, data: seq<byte>, p: nat)
    requires p < |data|
    ensures Pending(trace, k, Some(p), data, p + 1) == Emit(trace, Data(k, [data[p]]))
  {
    assert data[p..p + 1] == [data[p]];
  }

  lemma FlushDelivers(from: State, to: State, k: Kind, marks: Marks, trace: seq<Event>, data: seq<byte>, p: nat, next: nat)
    requires p < |data| && next <= |data| && MarksFit(from, marks, p, |data|)
    requires Collects(from) == Some(k) && NoData(to)
    ensures forall k :: marks.Get(k).Some? ==> marks.Get(k).value <= p
    ensures MacroDelivers(Flush(k), to, marks, trace, data, p, next) && MarksAfter(Flush(k), marks, p) == NO_MARKS
  {
    hide Emit, Pending;
    var m := marks.Get(k);
    MarksInside(from, marks, p, |data|);
    MarkGone(k, m);
    OnePending(trace, k, m, data, p);
    PendingMore(trace, k, m.value, data, p);
    var e := Data(k, data[m.value..p]);
    EmitAllOne(trace, e);
    EmitAllOne(Pending(trace, k, m, data, p), Data(k, []));
    NonePending(Emit(trace, e), data, next);
    assert DataAfter(Flush(k), marks, data, p) == [e] && MarksAfter(Flush(k), marks, p) == NO_MARKS;
  }

  lemma MarkGone(k: Kind, m: Option<nat>)
    ensures NO_MARKS.With(k, m).With(k, None) == NO_MARKS && NO_MARKS.With(k, m).Get(k) == m
  {}

  lemma NonePending(trace: seq<Event>, data: seq<byte>, p: nat)
    requires p <= |data|
    ensures AllPending(trace, NO_MARKS, data, p) == trace
  {}

  lemma MarkFlushDelivers(from: State, to: State, k: Kind, marks: Marks, trace: seq<Event>, data: seq<byte>, p: nat, next: nat)
    requires p < |data| && next <= |data| && MarksFit(from, marks, p, |data|)
    requires NoData(from) && !BodyState(from) && NoData(to)
    ensures forall k :: marks.Get(k).Some? ==> marks.Get(k).value <= p
    ensures MacroDelivers(MarkFlush(k), to, marks, trace, data, p, next) && MarksAfter(MarkFlush(k), marks, p) == NO_MARKS
    ensures MacroDelivers(NoMark, to, marks, trace, data, p, next) && MarksAfter(NoMark, marks, p) == NO_MARKS
  {
    hide Emit, EmitAll, AllPending, Pending;
    assert marks == NO_MARKS && data[p..p] == [];
    MarkGone(k, None);
    NonePending(trace, data, p);
    NonePending(trace, data, next);
    NonePending(Emit(trace, Data(k, [])), data, next);
    EmitAllNone(trace);
    EmitAllOne(trace, Data(k, []));
  }

  lemma FlushIfSetDelivers(to: State, marks: Marks, trace: seq<Event>, data: seq<byte>, p: nat)
    requires p < |data| && MarksFit(ChunkDataAlmostDone, marks, p, |data|) && NoData(to)
    ensures forall k :: marks.Get(k).Some? ==> marks.Get(k).value <= p
    ensures MacroDelivers(FlushIfSet(Body), to, marks, trace, data, p, p + 1)
    ensures MarksAfter(FlushIfSet(Body), marks, p) == NO_MARKS
  {
    hide Emit, EmitAll, AllPending;
    MarksInside(ChunkDataAlmostDone, marks, p, |data|);
    MarkGone(Body, marks.body);
    OnePending(trace, Body, marks.body, data, p);
    NonePending(trace, data, p + 1);
    EmitAllNone(trace);
    EmitAllNone(Pending(trace, Body, marks.body, data, p));
    if marks.body.Some? {
      EmitAllOne(trace, Data(Body, data[marks.body.value..p]));
      NonePending(Emit(trace, Data(Body, data[marks.body.value..p])), data, p + 1);
    }
  }

  /** The macros on real marks deliver what the byte-wise run delivers byte by byte. */
  lemma MarkMacros(q: Parser, a: Act, marks: Marks, trace: seq<Event>, data: seq<byte>, p: nat)
    requires p < |data| && MarksFit(q.state, marks, p, |data|) && !BodyState(q.state)
    requires (a.Next? || a.Again?) && MarksAsStates(q, a)
    ensures forall k :: marks.Get(k).Some? ==> marks.Get(k).value <= p
    ensures MacroDelivers(a.mark, a.q.state, marks, trace, data, p, if a.Next? then p + 1 else p)
    ensures a.notes != [] ==> MarksAfter(a.mark, marks, p) == NO_MARKS
  {
    var next := if a.Next? then p + 1 else p;
    match a.mark {
      case NoMark => MarkFlushDelivers(q.state, a.q.state, Value, marks, trace, data, p, next);
      case Keep(k) => KeepDelivers(q.state, a.q.state, k, marks, trace, data, p);
      case Mark(k) => MarkDelivers(q.state, a.q.state, k, marks, trace, data, p);
      case Flush(k) => FlushDelivers(q.state, a.q.state, k, marks, trace, data, p, next);
      case MarkFlush(k) => MarkFlushDelivers(q.state, a.q.state, k, marks, trace, data, p, next);
      case FlushIfSet(k) => FlushIfSetDelivers(a.q.state, marks, trace, data, p);
    }
  }

  // ---- The arms outside the inner loops --------------------------------------------------------

  datatype End = Consumed | LeftEarly | Failure(errno: Errno)

  lemma PrependTwice(a: seq<Event>, b: seq<Event>, s: Step)
    ensures Prepend(a, Prepend(b, s)) == Prepend(a + b, s)
  {
    if !s.Erred? {
      assert a + (b + s.events) == a + b + s.events;
    }
  }

  lemma NotesLast(trace: seq<Event>, marks: Marks, own: seq<Event>, notes: seq<Event>, base: seq<Event>, data: seq<byte>, p: nat)
    requires p <= |data| && AllPending(trace, marks, data, p) == EmitAll(base, own)
    requires notes != [] ==> marks == NO_MARKS
    ensures AllPending(EmitAll(trace, notes), marks, data, p) == EmitAll(base, own + notes)
  {
    EmitAllAppend(base, own, notes);
  }

  /** What an arm that does not leave adds to what was delivered for `made`. */
  lemma ArmDelivers(
      q: Parser, a: Act, marks: Marks, t0: seq<Event>, events: seq<Event>, trace: seq<Event>, made: seq<Event>,
      data: seq<byte>, p: nat)
    requires p < |data| && MarksFit(q.state, marks, p, |data|) && !BodyState(q.state)
    requires (a.Next? || a.Again?) && MarksAsStates(q, a)
    requires AllPending(EmitAll(t0, events), marks, data, p) == EmitAll(trace, made)
    ensures forall k :: marks.Get(k).Some? ==> marks.Get(k).value <= p
    ensures var next, marks1 := if a.Next? then p + 1 else p, MarksAfter(a.mark, marks, p);
      && MarksFit(a.q.state, marks1, next, |data|)
      && AllPending(EmitAll(t0, events + DataAfter(a.mark, marks, data, p) + a.notes), marks1, data, next)
        == EmitAll(trace, made + (OwnData(a.mark, data[p]) + a.notes))
  {
    hide Emit, EmitAll, AllPending, MarksFit, MarksAfter, DataAfter, OwnData, MarksAsStates;
    var base, own := EmitAll(t0, events), OwnData(a.mark, data[p]);
    MarkMacros(q, a, marks, base, data, p);
    var slices := DataAfter(a.mark, marks, data, p);
    NotesLast(EmitAll(base, slices), MarksAfter(a.mark, marks, p), own, a.notes, AllPending(base, marks, data, p), data,
              if a.Next? then p + 1 else p);
    EmitAllAppend(t0, events, slices);
    EmitAllAppend(t0, events + slices, a.notes);
    EmitAllAppend(trace, made, own + a.notes);
  }

  /** What an arm that leaves adds. */
  lemma LeaveDelivers(
      q: Parser, a: Act, marks: Marks, t0: seq<Event>, events: seq<Event>, trace: seq<Event>, made: seq<Event>,
      data: seq<byte>, p: nat)
    requires p < |data| && MarksFit(q.state, marks, p, |data|) && !BodyState(q.state) && a.Leave? && MarksAsStates(q, a)
    requires AllPending(EmitAll(t0, events), marks, data, p) == EmitAll(trace, made)
    ensures EmitAll(t0, events + a.notes) == EmitAll(trace, made + a.notes)
  {
    hide EmitAll;
    EmitAllAppend(t0, events, a.notes);
    EmitAllAppend(trace, made, a.notes);
  }

  /** The switch, re-executed until an arm takes the byte, leaves or errs. */
  method RunArms(q0: Parser, data: seq<byte>, p: nat, marks0: Marks, events0: seq<Event>, ghost t0: seq<Event>)
    returns (q: Parser, marks: Marks, events: seq<Event>, end: End)
    requires p < |data| && AtSwitch(q0) && !ScanState(q0.state) && MarksFit(q0.state, marks0, p, |data|)
    ensures var s := Exec(q0, data[p]);
      var trace := AllPending(EmitAll(t0, events0), marks0, data, p);
      match end
      case Consumed =>
        && s.Went? && q == s.q && MarksFit(q.state, marks, p + 1, |data|)
        && AllPending(EmitAll(t0, events), marks, data, p + 1) == EmitAll(trace, s.events)
      case LeftEarly => s.Quit? && q == s.q && EmitAll(t0, events) == EmitAll(trace, s.events)
      case Failure(errno) => s == Erred(errno)
  {
    hide Emit, EmitAll, AllPending, MarksFit, MarksAfter, DataAfter, OwnData, MarksAsStates, Quiet;
    EmitAllNone(AllPending(EmitAll(t0, events0), marks0, data, p));
    var ch := data[p];
    q, marks, events := q0, marks0, events0;
    ghost var trace := AllPending(EmitAll(t0, events0), marks0, data, p);
    ghost var made: seq<Event> := [];
    while true
      invariant AtSwitch(q) && !ScanState(q.state) && MarksFit(q.state, marks, p, |data|)
      invariant Exec(q0, ch) == Prepend(made, Exec(q, ch))
      invariant AllPending(EmitAll(t0, events), marks, data, p) == EmitAll(trace, made)
      decreases Rank(q.state)
    {
      var a := Arm(q, ch);
      ArmKeeps(q, ch);
      if a.Bad? {
        end := Failure(a.errno);
        return;
      }
      if a.Leave? {
        LeaveDelivers(q, a, marks, t0, events, trace, made, data, p);
        q, events, end := a.q, events + a.notes, LeftEarly;
        return;
      }
      ArmDelivers(q, a, marks, t0, events, trace, made, data, p);
      ghost var own := OwnData(a.mark, ch);
      events := events + DataAfter(a.mark, marks, data, p) + a.notes;
      marks := MarksAfter(a.mark, marks, p);
      if a.Next? {
        q, end := a.q, Consumed;
        return;
      }
      PrependTwice(made, own + a.notes, Exec(a.q, ch));
      made := made + (own + a.notes);
      q := a.q;
    }
  }

  // ---- The inner loops -------------------------------------------------------------------------

  /** `COUNT_HEADER_SIZE(v)` on a `uint32_t`. */
  function CountBytes(nread: nat, v: nat): nat {
    (nread + v) % 0x1_0000_0000
  }

  /** How an inner loop ends: with the byte at `p` dealt with, back to the switch with it, or in error. */
  datatype ScanEnd = Stopped | Reexecute | ScanError(errno: Errno)

  ghost predicate ScanDone(
      r0: Run, data: seq<byte>, t0: seq<Event>, p: nat, q: Parser, marks: Marks, events: seq<Event>, end: ScanEnd)
  {
    match end
    case Stopped =>
      && p < |data| && Good(q) && MarksFit(q.state, marks, p + 1, |data|)
      && Upto(r0, data, p + 1) == Live(q, AllPending(EmitAll(t0, events), marks, data, p + 1), p + 1)
    case Reexecute =>
      && p < |data| && AtSwitch(q) && !ScanState(q.state) && MarksFit(q.state, marks, p, |data|)
      && Upto(r0, data, p + 1) == AfterSwitch(q, data[p], AllPending(EmitAll(t0, events), marks, data, p), p + 1)
    case ScanError(errno) => p < |data| && errno != Ok && Over(r0, data) == Failed
  }

  /**
    Where an inner loop that began at `start` stands at `p`: `q` has counted the byte at `start`
    only, while the byte-wise run counted each one, and erred if that was too many.
  */
  ghost predicate ScanAt(
      r0: Run, data: seq<byte>, start: nat, p: nat, q: Parser, trace: seq<Event>, k: Kind, m: nat)
  {
    && m <= start <= p <= |data| && AtSwitch(q) && 0 < q.nread <= MAX_HEADER_SIZE && Collects(q.state) == Some(k)
    && var n := q.nread - 1 + (p - start);
      if n <= MAX_HEADER_SIZE then
        Good(q.(nread := n)) && Upto(r0, data, p) == Live(q.(nread := n), Pending(trace, k, Some(m), data, p), p)
      else Upto(r0, data, p) == Failed
  }

  lemma FailedStays(r0: Run, data: seq<byte>, p: nat)
    requires p <= |data| && Upto(r0, data, p) == Failed
    ensures forall i :: p <= i <= |data| ==> Upto(r0, data, i) == Failed
  {
    forall i | p <= i <= |data|
      ensures Upto(r0, data, i) == Failed
    {
      Ended(r0, data, p, i);
    }
  }

  lemma AnyCount(q: Parser, n: nat)
    requires AtSwitch(q) && n <= MAX_HEADER_SIZE
    ensures AtSwitch(q.(nread := n))
  {
    hide MethodString;
  }

  /** The byte-wise step inside a name or value: the byte is counted and the switch executed. */
  lemma ScanStep(r0: Run, data: seq<byte>, start: nat, p: nat, q: Parser, trace: seq<Event>, k: Kind, m: nat)
    requires ScanAt(r0, data, start, p, q, trace, k, m) && p < |data| && (q.state == HeaderField || q.state == HeaderValue)
    ensures var n := q.nread + (p - start);
      && (n > MAX_HEADER_SIZE ==> Upto(r0, data, p + 1) == Failed)
      && (n <= MAX_HEADER_SIZE ==>
           && AtSwitch(q.(nread := n))
           && Upto(r0, data, p + 1) == AfterSwitch(q.(nread := n), data[p], Pending(trace, k, Some(m), data, p), p + 1))
  {
    hide Exec, Emit, Pending, AtSwitch, Good;
    UptoStep(r0, data, p);
    var n := q.nread + (p - start);
    if n <= MAX_HEADER_SIZE {
      AnyCount(q, n);
      assert Counted(q.(nread := n - 1)) == q.(nread := n);
    }
  }

  /** The switch, where the arm takes the byte and keeps it behind a mark. */
  lemma KeptByte(q: Parser, q1: Parser, data: seq<byte>, p: nat, trace: seq<Event>, k: Kind, m: nat)
    requires p < |data| && m <= p && AtSwitch(q) && !BodyState(q.state) && Arm(q, data[p]) == Next(q1, Keep(k), [])
    ensures Good(q1)
    ensures AfterSwitch(q, data[p], Pending(trace, k, Some(m), data, p), p + 1)
      == Live(q1, Pending(trace, k, Some(m), data, p + 1), p + 1)
  {
    hide Arm, AtSwitch, Good, Emit, Pending;
    ExecKeeps(q, data[p]);
    assert Exec(q, data[p]) == Went(q1, [Data(k, [data[p]])]);
    PendingMore(trace, k, m, data, p);
    EmitAllOne(Pending(trace, k, Some(m), data, p), Data(k, [data[p]]));
  }

  /** The switch, where the arm takes the byte and delivers what is behind a mark. */
  lemma FlushedByte(q: Parser, q1: Parser, data: seq<byte>, p: nat, trace: seq<Event>, k: Kind, m: nat)
    requires p < |data| && m <= p && AtSwitch(q) && !BodyState(q.state) && Arm(q, data[p]) == Next(q1, Flush(k), [])
    ensures Good(q1)
    ensures AfterSwitch(q, data[p], Pending(trace, k, Some(m), data, p), p + 1)
      == Live(q1, Emit(trace, Data(k, data[m..p])), p + 1)
  {
    hide Arm, AtSwitch, Good, Emit, Pending;
    ExecKeeps(q, data[p]);
    assert Exec(q, data[p]) == Went(q1, [Data(k, [])]);
    PendingMore(trace, k, m, data, p);
    EmitAllOne(Pending(trace, k, Some(m), data, p), Data(k, []));
  }

  lemma BadByte(q: Parser, ch: byte, trace: seq<Event>, n: nat)
    requires AtSwitch(q) && Arm(q, ch).Bad?
    ensures AfterSwitch(q, ch, trace, n) == Failed
  {
    hide Arm, AtSwitch, Good;
  }

  lemma FieldByte(r0: Run, data: seq<byte>, start: nat, p: nat, q: Parser, trace: seq<Event>, m: nat)
    requires ScanAt(r0, data, start, p, q, trace, Field, m) && p < |data| && q.state == HeaderField
    requires TokenOf(data[p]) != 0
    ensures ScanAt(r0, data, start, p + 1, MatchName(q, TokenOf(data[p]), data[p]), trace, Field, m)
  {
    hide StepByte, Exec, Emit, Pending, AtSwitch, Good, MatchName;
    var c := TokenOf(data[p]);
    ScanStep(r0, data, start, p, q, trace, Field, m);
    NameKeeps(q, c, data[p]);
    GoodAtSwitch(MatchName(q, c, data[p]));
    MatchNameInert(q, c, data[p], q.nread + (p - start));
    var n := q.nread + (p - start);
    if n <= MAX_HEADER_SIZE {
      KeptByte(q.(nread := n), MatchName(q, c, data[p]).(nread := n), data, p, trace, Field, m);
    }
  }

  /** Matching names neither reads nor writes the byte count, and leaves names it does not know alone. */
  lemma MatchNameInert(q: Parser, c: byte, ch: byte, n: nat)
    ensures MatchName(q.(nread := n), c, ch) == MatchName(q, c, ch).(nread := n)
    ensures MatchName(q, c, ch).state == q.state && MatchName(q, c, ch).nread == q.nread
    ensures q.headerState == General ==> MatchName(q, c, ch) == q
  {
    hide MatchWord;
    match q.headerState {
      case MatchingConnection => MatchWordInert(q, CONNECTION, c, Connection, General, n);
      case MatchingProxyConnection => MatchWordInert(q, PROXY_CONNECTION, c, Connection, General, n);
      case MatchingContentLength => MatchWordInert(q, CONTENT_LENGTH, c, ContentLength, General, n);
      case MatchingTransferEncoding => MatchWordInert(q, TRANSFER_ENCODING, c, TransferEncoding, General, n);
      case MatchingUpgrade => MatchWordInert(q, UPGRADE, c, Upgrade, General, n);
      case _ =>
    }
  }

  lemma FieldEnd(r0: Run, data: seq<byte>, start: nat, p: nat, q: Parser, trace: seq<Event>, m: nat)
    requires ScanAt(r0, data, start, p, q, trace, Field, m) && p < |data| && q.state == HeaderField
    requires TokenOf(data[p]) == 0
    ensures var n := q.nread + (p - start);
      var q1 := q.(nread := n, state := HeaderValueDiscardWs);
      && (n > MAX_HEADER_SIZE || data[p] != COLON ==> Upto(r0, data, p + 1) == Failed)
      && (n <= MAX_HEADER_SIZE && data[p] == COLON ==>
           Good(q1) && Upto(r0, data, p + 1) == Live(q1, Emit(trace, Data(Field, data[m..p])), p + 1))
  {
    hide StepByte, Exec, Emit, Pending, MatchName, MethodString, Advance, Good, AtSwitch, AfterSwitch, Arm;
    ScanStep(r0, data, start, p, q, trace, Field, m);
    var n := q.nread + (p - start);
    if n <= MAX_HEADER_SIZE {
      var q1 := q.(nread := n);
      HttpFeed.FieldArmAt(q1, data[p]);
      if data[p] == COLON {
        FlushedByte(q1, q1.(state := HeaderValueDiscardWs), data, p, trace, Field, m);
      } else {
        BadByte(q1, data[p], Pending(trace, Field, Some(m), data, p), p + 1);
      }
    }
  }

  /** The arm `s_header_field`, lines 1249 to 1383. */
  method ScanField(q0: Parser, data: seq<byte>, start: nat, marks0: Marks, events0: seq<Event>,
                   ghost r0: Run, ghost t0: seq<Event>)
    returns (q: Parser, p: nat, marks: Marks, events: seq<Event>, end: ScanEnd)
    requires start < |data| < 0x8000_0000 && q0.state == HeaderField && MarksFit(HeaderField, marks0, start, |data|)
    requires ScanAt(r0, data, start, start, q0, EmitAll(t0, events0), Field, marks0.field.value)
    ensures start <= p && ScanDone(r0, data, t0, p, q, marks, events, end)
  {
    hide AtSwitch, Good, MatchName, Emit, EmitAll, Advance, AfterSwitch, TokenOf;
    var m := marks0.field.value;
    ghost var trace := EmitAll(t0, events0);
    q, p, marks, events := q0, start, marks0, events0;
    while p < |data| && TokenOf(data[p]) != 0
      invariant start <= p <= |data| && q.state == HeaderField && q.nread == q0.nread
      invariant ScanAt(r0, data, start, p, q, trace, Field, m)
    {
      FieldByte(r0, data, start, p, q, trace, m);
      MatchNameInert(q, TokenOf(data[p]), data[p], 0);
      if q.headerState == General {
        var left := |data| - p;
        var pe := p + if left < MAX_HEADER_SIZE then left else MAX_HEADER_SIZE;
        while p + 1 < pe && TokenOf(data[p + 1]) != 0
          invariant start <= p < pe <= |data| && TokenOf(data[p]) != 0
          invariant ScanAt(r0, data, start, p + 1, q, trace, Field, m)
        {
          p := p + 1;
          FieldByte(r0, data, start, p, q, trace, m);
          MatchNameInert(q, TokenOf(data[p]), data[p], 0);
        }
      } else {
        q := MatchName(q, TokenOf(data[p]), data[p]);
      }
      p := p + 1;
    }
    if p == |data| {
      p := p - 1;
      q := q.(nread := CountBytes(q.nread, p - start));
      if q.nread > MAX_HEADER_SIZE {
        end := ScanError(HeaderOverflow);
      } else {
        OnePending(trace, Field, marks.field, data, p + 1);
        end := Stopped;
      }
      return;
    }
    q, marks, events, end := EndField(q, data, start, p, m, marks, events, r0, t0);
  }

  /** A byte that cannot be in a name: the bytes run through are counted, and a colon delivers the name. */
  method EndField(q0: Parser, data: seq<byte>, start: nat, p: nat, m: nat, marks0: Marks, events0: seq<Event>,
                  ghost r0: Run, ghost t0: seq<Event>)
    returns (q: Parser, marks: Marks, events: seq<Event>, end: ScanEnd)
    requires p < |data| < 0x8000_0000 && q0.state == HeaderField && TokenOf(data[p]) == 0
    requires ScanAt(r0, data, start, p, q0, EmitAll(t0, events0), Field, m)
    ensures ScanDone(r0, data, t0, p, q, marks, events, end)
  {
    hide AtSwitch, Good, Emit, EmitAll, Advance, AfterSwitch, TokenOf;
    FieldEnd(r0, data, start, p, q0, EmitAll(t0, events0), m);
    q, marks, events := q0.(nread := CountBytes(q0.nread, p - start)), marks0, events0;
    if q.nread > MAX_HEADER_SIZE {
      FailedStays(r0, data, p + 1);
      end := ScanError(HeaderOverflow);
    } else if data[p] == COLON {
      q := q.(state := HeaderValueDiscardWs);
      EmitOneMore(t0, events, Data(Field, data[m..p]));
      events, marks := events + [Data(Field, data[m..p])], NO_MARKS;
      end := Stopped;
    } else {
      FailedStays(r0, data, p + 1);
      end := ScanError(InvalidHeaderToken);
    }
  }

  /** Re-executing an arm is executing the switch with its data delivered. */
  lemma Reruns(q: Parser, q1: Parser, ch: byte, mark: MarkAct, trace: seq<Event>, n: nat)
    requires AtSwitch(q) && Arm(q, ch) == Again(q1, mark, [])
    ensures AtSwitch(q1) && AfterSwitch(q, ch, trace, n) == AfterSwitch(q1, ch, EmitAll(trace, OwnData(mark, ch)), n)
  {
    hide Arm, EmitAll, MarksAsStates, MethodString, OwnData;
    ArmKeeps(q, ch);
    ExecKeeps(q, ch);
    ExecKeeps(q1, ch);
    assert OwnData(mark, ch) + [] == OwnData(mark, ch);
    assert Exec(q, ch) == Prepend(OwnData(mark, ch), Exec(q1, ch));
    PrependResumes(OwnData(mark, ch), Exec(q1, ch), trace, n);
  }

  /** The switch, where the arm delivers what is behind a mark and re-executes. */
  lemma FlushedAgain(q: Parser, q1: Parser, data: seq<byte>, p: nat, trace: seq<Event>, k: Kind, m: nat)
    requires p < |data| && m <= p && AtSwitch(q) && !BodyState(q.state) && Arm(q, data[p]) == Again(q1, Flush(k), [])
    ensures AtSwitch(q1)
    ensures AfterSwitch(q, data[p], Pending(trace, k, Some(m), data, p), p + 1)
      == AfterSwitch(q1, data[p], Emit(trace, Data(k, data[m..p])), p + 1)
  {
    hide Arm, Emit, EmitAll, Pending, AtSwitch, AfterSwitch;
    var pending := Pending(trace, k, Some(m), data, p);
    Reruns(q, q1, data[p], Flush(k), pending, p + 1);
    PendingMore(trace, k, m, data, p);
    EmitAllOne(pending, Data(k, []));
  }

  lemma MatchWordInert(q: Parser, word: string, c: byte, whole: HeaderState, otherwise: HeaderState, n: nat)
    ensures MatchWord(q.(nread := n), word, c, whole, otherwise) == MatchWord(q, word, c, whole, otherwise).(nread := n)
    ensures MatchWord(q, word, c, whole, otherwise).state == q.state && MatchWord(q, word, c, whole, otherwise).nread == q.nread
  {}

  lemma MatchTokenInert(q: Parser, ch: byte, c: byte, n: nat)
    ensures MatchToken(q.(nread := n), ch, c) == MatchToken(q, ch, c).(nread := n)
    ensures MatchToken(q, ch, c).state == q.state && MatchToken(q, ch, c).nread == q.nread
    ensures q.headerState == General ==> MatchToken(q, ch, c) == q
  {
    hide MatchWord, TokenOf;
    match q.headerState {
      case MatchingChunked => MatchWordInert(q, CHUNKED, c, Chunked, General, n);
      case MatchingKeepAlive => MatchWordInert(q, KEEP_ALIVE, c, KeepAlive, Token, n);
      case MatchingClose => MatchWordInert(q, CLOSE, c, Close, Token, n);
      case MatchingConnectionUpgrade => MatchWordInert(q, UPGRADE, c, ConnectionUpgrade, Token, n);
      case _ =>
    }
  }

  /** Matching values neither reads nor writes the byte count, and leaves values it does not know alone. */
  lemma MatchValueInert(q: Parser, ch: byte, n: nat)
    ensures var a, b := MatchValue(q.(nread := n), ch), MatchValue(q, ch);
      a.Some? == b.Some? && (b.Some? ==> a.value == b.value.(nread := n) && b.value.state == q.state && b.value.nread == q.nread)
    ensures q.headerState == General ==> MatchValue(q, ch) == Some(q)
  {
    hide MatchToken;
    MatchTokenInert(q, ch, Lower(ch), n);
  }

  lemma ValueByte(r0: Run, data: seq<byte>, start: nat, p: nat, q: Parser, trace: seq<Event>, m: nat)
    requires ScanAt(r0, data, start, p, q, trace, Value, m) && p < |data| && q.state == HeaderValue
    requires data[p] != CR && data[p] != LF
    ensures IsHeaderChar(data[p]) && MatchValue(q, data[p]).Some? ==>
      ScanAt(r0, data, start, p + 1, MatchValue(q, data[p]).value, trace, Value, m)
    ensures !IsHeaderChar(data[p]) || MatchValue(q, data[p]).None? ==> Upto(r0, data, p + 1) == Failed
  {
    hide StepByte, Exec, Emit, Pending, AtSwitch, Good, MatchValue, IsHeaderChar;
    ScanStep(r0, data, start, p, q, trace, Value, m);
    var n := q.nread + (p - start);
    MatchValueInert(q, data[p], n);
    if IsHeaderChar(data[p]) && MatchValue(q, data[p]).Some? {
      var q1 := MatchValue(q, data[p]).value;
      ValueKeeps(q, data[p]);
      GoodAtSwitch(q1);
      if n <= MAX_HEADER_SIZE {
        KeptByte(q.(nread := n), q1.(nread := n), data, p, trace, Value, m);
      }
    } else if n <= MAX_HEADER_SIZE {
      BadByte(q.(nread := n), data[p], Pending(trace, Value, Some(m), data, p), p + 1);
    }
  }

  lemma ValueEnd(r0: Run, data: seq<byte>, start: nat, p: nat, q: Parser, trace: seq<Event>, m: nat)
    requires ScanAt(r0, data, start, p, q, trace, Value, m) && p < |data| && q.state == HeaderValue
    requires data[p] == CR || data[p] == LF
    ensures var n := q.nread + (p - start);
      var q1 := q.(nread := n, state := HeaderAlmostDone);
      var delivered := Emit(trace, Data(Value, data[m..p]));
      && (n > MAX_HEADER_SIZE ==> Upto(r0, data, p + 1) == Failed)
      && (n <= MAX_HEADER_SIZE && data[p] == CR ==> Good(q1) && Upto(r0, data, p + 1) == Live(q1, delivered, p + 1))
      && (n <= MAX_HEADER_SIZE && data[p] == LF ==>
           AtSwitch(q1) && Upto(r0, data, p + 1) == AfterSwitch(q1, LF, delivered, p + 1))
  {
    hide StepByte, Exec, Emit, Pending, MatchValue, IsHeaderChar, AtSwitch, Good;
    ScanStep(r0, data, start, p, q, trace, Value, m);
    var n := q.nread + (p - start);
    if n <= MAX_HEADER_SIZE {
      var q1 := q.(nread := n);
      if data[p] == CR {
        FlushedByte(q1, q1.(state := HeaderAlmostDone), data, p, trace, Value, m);
      } else {
        FlushedAgain(q1, q1.(state := HeaderAlmostDone), data, p, trace, Value, m);
      }
    }
  }

  /** Past the header budget it does not matter what an inner loop looks at. */
  lemma OverBudget(r0: Run, data: seq<byte>, start: nat, p: nat, q: Parser, trace: seq<Event>, m: nat)
    requires ScanAt(r0, data, start, p, q, trace, Value, m) && p < |data| && q.state == HeaderValue
    requires p - start >= MAX_HEADER_SIZE
    ensures ScanAt(r0, data, start, p + 1, q, trace, Value, m)
  {
    hide AtSwitch, Good;
    ScanStep(r0, data, start, p, q, trace, Value, m);
  }

  /** The inner loop for values of no interest; it stops one byte short of what the outer loop looks at next. */
  method SkipValue(q: Parser, data: seq<byte>, start: nat, from: nat, m: nat, ghost r0: Run, ghost trace: seq<Event>)
    returns (p: nat, bad: bool)
    requires start <= from < |data| && data[from] != CR && data[from] != LF && IsHeaderChar(data[from])
    requires ScanAt(r0, data, start, from, q, trace, Value, m) && q.state == HeaderValue && q.headerState == General
    ensures from <= p && (bad ==> p < |data| && Over(r0, data) == Failed)
    ensures !bad ==> from <= p < |data| && ScanAt(r0, data, start, p + 1, q, trace, Value, m)
  {
    hide AtSwitch, Good, MatchValue, IsHeaderChar, Emit, Advance;
    p := from;
    var left := |data| - p;
    var pe := p + if left < MAX_HEADER_SIZE then left else MAX_HEADER_SIZE;
    bad := false;
    while p != pe
      invariant from <= p <= pe <= |data| && ScanAt(r0, data, start, p, q, trace, Value, m)
      decreases pe - p
    {
      if data[p] == CR || data[p] == LF {
        p := p - 1;
        return;
      }
      ValueByte(r0, data, start, p, q, trace, m);
      MatchValueInert(q, data[p], 0);
      if !IsHeaderChar(data[p]) {
        FailedStays(r0, data, p + 1);
        bad := true;
        return;
      }
      p := p + 1;
    }
    if p == |data| {
      p := p - 1;
    } else {
      OverBudget(r0, data, start, p, q, trace, m);
    }
  }

  /** The arm `s_header_value`, lines 1470 to 1669. */
  method ScanValue(q0: Parser, data: seq<byte>, start: nat, marks0: Marks, events0: seq<Event>,
                   ghost r0: Run, ghost t0: seq<Event>)
    returns (q: Parser, p: nat, marks: Marks, events: seq<Event>, end: ScanEnd)
    requires start < |data| < 0x8000_0000 && q0.state == HeaderValue && MarksFit(HeaderValue, marks0, start, |data|)
    requires ScanAt(r0, data, start, start, q0, EmitAll(t0, events0), Value, marks0.value.value)
    ensures start <= p && ScanDone(r0, data, t0, p, q, marks, events, end)
  {
    hide AtSwitch, Good, MatchValue, Emit, EmitAll, Advance, AfterSwitch, IsHeaderChar;
    var m := marks0.value.value;
    ghost var trace := EmitAll(t0, events0);
    q, p, marks, events := q0, start, marks0, events0;
    while p < |data|
      invariant start <= p <= |data| && q.state == HeaderValue
      invariant ScanAt(r0, data, start, p, q, trace, Value, m)
    {
      var ch := data[p];
      if ch == CR || ch == LF {
        q, marks, events, end := EndValue(q, data, start, p, m, events, r0, t0);
        return;
      }
      ValueByte(r0, data, start, p, q, trace, m);
      MatchValueInert(q, ch, 0);
      if !IsHeaderChar(ch) {
        FailedStays(r0, data, p + 1);
        end := ScanError(InvalidHeaderToken);
        return;
      }
      if q.headerState == General {
        var bad;
        p, bad := SkipValue(q, data, start, p, m, r0, trace);
        if bad {
          end := ScanError(InvalidHeaderToken);
          return;
        }
      } else {
        var q1 := MatchValue(q, ch);
        if q1.None? {
          FailedStays(r0, data, p + 1);
          end := ScanError(InvalidContentLength);
          return;
        }
        q := q1.value;
      }
      p := p + 1;
    }
    p := p - 1;
    q := q.(nread := CountBytes(q.nread, p - start));
    if q.nread > MAX_HEADER_SIZE {
      end := ScanError(HeaderOverflow);
    } else {
      OnePending(trace, Value, marks.value, data, p + 1);
      end := Stopped;
    }
  }

  /** A CR or LF ends the value; the bytes run through are counted and the value is delivered. */
  method EndValue(q0: Parser, data: seq<byte>, start: nat, p: nat, m: nat, events0: seq<Event>,
                  ghost r0: Run, ghost t0: seq<Event>)
    returns (q: Parser, marks: Marks, events: seq<Event>, end: ScanEnd)
    requires p < |data| < 0x8000_0000 && q0.state == HeaderValue && (data[p] == CR || data[p] == LF)
    requires ScanAt(r0, data, start, p, q0, EmitAll(t0, events0), Value, m)
    ensures ScanDone(r0, data, t0, p, q, marks, events, end)
  {
    hide AtSwitch, Good, Emit, EmitAll, Advance, AfterSwitch;
    ValueEnd(r0, data, start, p, q0, EmitAll(t0, events0), m);
    EmitOneMore(t0, events0, Data(Value, data[m..p]));
    q := q0.(state := HeaderAlmostDone, nread := CountBytes(q0.nread, p - start));
    events, marks := events0 + [Data(Value, data[m..p])], NO_MARKS;
    if q.nread > MAX_HEADER_SIZE {
      FailedStays(r0, data, p + 1);
      end := ScanError(HeaderOverflow);
    } else if data[p] == CR {
      end := Stopped;
    } else {
      end := Reexecute;
    }
  }

  /** One body byte that is not the last: it stays behind the mark. */
  lemma BodyByte(q: Parser, q1: Parser, data: seq<byte>, p: nat, trace: seq<Event>, m: nat)
    requires p < |data| && m <= p && AtSwitch(q) && Arm(q, data[p]) == Next(q1, Mark(Body), [])
    ensures Good(q1)
    ensures AfterSwitch(q, data[p], Pending(trace, Body, Some(m), data, p), p + 1)
      == Live(q1, Pending(trace, Body, Some(m), data, p + 1), p + 1)
  {
    hide Arm, Good, Emit, Pending, MethodString;
    ExecKeeps(q, data[p]);
    assert Exec(q, data[p]) == Went(q1, [Data(Body, [data[p]])]);
    PendingMore(trace, Body, m, data, p);
    EmitAllOne(Pending(trace, Body, Some(m), data, p), Data(Body, [data[p]]));
  }

  /** The last byte of a body of known length is delivered before the switch is re-executed. */
  lemma LastByte(q: Parser, q1: Parser, data: seq<byte>, p: nat, trace: seq<Event>, m: nat)
    requires p < |data| && m <= p && AtSwitch(q) && Arm(q, data[p]) == Again(q1, FlushWith(Body), [])
    ensures AtSwitch(q1)
    ensures AfterSwitch(q, data[p], Pending(trace, Body, Some(m), data, p), p + 1)
      == AfterSwitch(q1, data[p], Pending(trace, Body, Some(m), data, p + 1), p + 1)
  {
    hide Arm, Emit, EmitAll, Pending, AtSwitch, AfterSwitch;
    var pending := Pending(trace, Body, Some(m), data, p);
    Reruns(q, q1, data[p], FlushWith(Body), pending, p + 1);
    PendingMore(trace, Body, m, data, p);
    EmitAllOne(pending, Data(Body, [data[p]]));
  }

  /** Body bytes are not counted. */
  lemma BodyStep(r0: Run, data: seq<byte>, p: nat, q: Parser, trace: seq<Event>)
    requires p < |data| && Good(q) && BodyState(q.state) && Upto(r0, data, p) == Live(q, trace, p)
    ensures AtSwitch(q) && Upto(r0, data, p + 1) == AfterSwitch(q, data[p], trace, p + 1)
  {
    hide Exec, AtSwitch;
    UptoStep(r0, data, p);
    assert Counted(q) == q;
  }

  lemma BodyBytesMore(r0: Run, data: seq<byte>, start: nat, j: nat, q: Parser, trace: seq<Event>)
    requires BodyState(q.state) && j + 1 < q.contentLength && start + j < |data|
    requires Good(q.(contentLength := q.contentLength - j))
    requires Upto(r0, data, start + j) == Live(q.(contentLength := q.contentLength - j),
      Pending(trace, Body, Some(start), data, start + j), start + j)
    ensures Good(q.(contentLength := q.contentLength - j - 1))
    ensures Upto(r0, data, start + j + 1) == Live(q.(contentLength := q.contentLength - j - 1),
      Pending(trace, Body, Some(start), data, start + j + 1), start + j + 1)
  {
    hide Exec, Emit, Arm, MethodString, AfterSwitch, Advance, Good, AtSwitch, Pending;
    var q1 := q.(contentLength := q.contentLength - j);
    BodyStep(r0, data, start + j, q1, Pending(trace, Body, Some(start), data, start + j));
    BodyArmShape(q1, data[start + j]);
    BodyByte(q1, q.(contentLength := q.contentLength - j - 1), data, start + j, trace, start);
  }

  /** The byte-wise run over `j` bytes of a body that is longer than that. */
  lemma {:induction false} BodyBytes(r0: Run, data: seq<byte>, start: nat, j: nat, q: Parser, trace: seq<Event>)
    requires Good(q) && BodyState(q.state) && j < q.contentLength && start + j <= |data|
    requires Upto(r0, data, start) == Live(q, trace, start)
    ensures Good(q.(contentLength := q.contentLength - j))
    ensures Upto(r0, data, start + j) == Live(q.(contentLength := q.contentLength - j),
      Pending(trace, Body, Some(start), data, start + j), start + j)
  {
    hide Exec, Emit, Arm, MethodString, AfterSwitch, Advance, Good;
    if j > 0 {
      BodyBytes(r0, data, start, j - 1, q, trace);
      BodyBytesMore(r0, data, start, j - 1, q, trace);
    }
  }

  lemma BodyArmShape(q: Parser, ch: byte)
    requires BodyState(q.state) && q.contentLength > 0
    ensures Arm(q, ch) == BodyArm(q)
  {}

  /** The next byte is one of the body. */
  ghost predicate BodySwitch(r0: Run, data: seq<byte>, p: nat, q: Parser, trace: seq<Event>) {
    && p < |data| && AtSwitch(q) && BodyState(q.state) && q.contentLength > 0 && Arm(q, data[p]) == BodyArm(q)
    && Upto(r0, data, p + 1) == AfterSwitch(q, data[p], trace, p + 1)
  }

  /** The last of `j + 1` bytes of a body that is at least that long. */
  lemma BodyLast(r0: Run, data: seq<byte>, start: nat, j: nat, q: Parser, trace: seq<Event>)
    requires Good(q) && BodyState(q.state) && j < q.contentLength && start + j < |data|
    requires Upto(r0, data, start) == Live(q, trace, start)
    ensures BodySwitch(r0, data, start + j, q.(contentLength := q.contentLength - j), Pending(trace, Body, Some(start), data, start + j))
  {
    hide Exec, Emit, Arm, MethodString, AfterSwitch, Advance, Good, AtSwitch, Pending, Upto;
    BodyBytes(r0, data, start, j, q, trace);
    var last, p := q.(contentLength := q.contentLength - j), start + j;
    BodyStep(r0, data, p, last, Pending(trace, Body, Some(start), data, p));
    BodyArmShape(last, data[p]);
  }

  /** The whole body is read: it is delivered, and the switch is re-executed. */
  lemma BodyOver(
      r0: Run, data: seq<byte>, start: nat, j: nat, q: Parser, t0: seq<Event>, events: seq<Event>)
    requires Good(q) && q.state.BodyIdentity? && j + 1 == q.contentLength && start + j < |data|
    requires Upto(r0, data, start) == Live(q, EmitAll(t0, events), start)
    ensures var p := start + j;
      ScanDone(r0, data, t0, p, q.(contentLength := 0, state := MessageDone), NO_MARKS,
               events + [Data(Body, data[start..p + 1])], Reexecute)
  {
    hide Exec, Emit, EmitAll, MethodString, AfterSwitch, Advance, Arm, Good, AtSwitch, Upto;
    var p, trace := start + j, EmitAll(t0, events);
    BodyLast(r0, data, start, j, q, trace);
    OnePending(trace, Body, Some(start), data, p + 1);
    LastByte(q.(contentLength := 1), q.(contentLength := 0, state := MessageDone), data, p, trace, start);
    EmitOneMore(t0, events, Data(Body, data[start..p + 1]));
  }

  /** More of the body is to come, or it is a chunk: the bytes read stay behind the mark. */
  lemma BodyPending(
      r0: Run, data: seq<byte>, start: nat, j: nat, q: Parser, q1: Parser, t0: seq<Event>, events: seq<Event>)
    requires Good(q) && BodyState(q.state) && j < q.contentLength && start + j < |data|
    requires Upto(r0, data, start) == Live(q, EmitAll(t0, events), start)
    requires j + 1 < q.contentLength || q.state.ChunkData?
    requires q1 == q.(contentLength := q.contentLength - (j + 1),
                      state := if j + 1 == q.contentLength then ChunkDataAlmostDone else q.state)
    requires j + 1 == q.contentLength || start + j + 1 == |data|
    ensures ScanDone(r0, data, t0, start + j, q1, NO_MARKS.(body := Some(start)), events, Stopped)
  {
    hide Exec, Emit, EmitAll, MethodString, AfterSwitch, Advance, Arm, Good, AtSwitch, Upto;
    var p, trace := start + j, EmitAll(t0, events);
    BodyLast(r0, data, start, j, q, trace);
    OnePending(trace, Body, Some(start), data, p + 1);
    BodyByte(q.(contentLength := q.contentLength - j), q1, data, p, trace, start);
  }

  /** The arms `s_body_identity` and `s_chunk_data`, lines 1874 to 1908 and 2008 to 2029. */
  method ScanBody(q0: Parser, data: seq<byte>, start: nat, events0: seq<Event>, ghost r0: Run, ghost t0: seq<Event>)
    returns (q: Parser, p: nat, marks: Marks, events: seq<Event>, end: ScanEnd)
    requires start < |data| && Good(q0) && BodyState(q0.state)
    requires Upto(r0, data, start) == Live(q0, EmitAll(t0, events0), start)
    ensures start <= p && end != ScanError(Ok) && ScanDone(r0, data, t0, p, q, marks, events, end)
  {
    hide EmitAll, Good, Upto, ScanDone;
    BodyLeft(q0);
    assert q0.contentLength != 0 && q0.contentLength != ULLONG_MAX;
    var left := |data| - start;
    var toRead := if q0.contentLength < left then q0.contentLength else left;
    q, events, marks := q0.(contentLength := q0.contentLength - toRead), events0, NO_MARKS.(body := Some(start));
    p := start + toRead - 1;
    if q.contentLength == 0 && q.state.BodyIdentity? {
      q := q.(state := MessageDone);
      BodyOver(r0, data, start, toRead - 1, q0, t0, events0);
      events, marks := events + [Data(Body, data[start..p + 1])], NO_MARKS;
      end := Reexecute;
    } else {
      if q.contentLength == 0 {
        q := q.(state := ChunkDataAlmostDone);
      }
      BodyPending(r0, data, start, toRead - 1, q0, q, t0, events0);
      end := Stopped;
    }
  }

  // ---- The whole call --------------------------------------------------------------------------

  /** The callbacks for marks that are left when the input runs out, lines 2065 to 2075. */
  function Leftover(marks: Marks, data: seq<byte>): seq<Event>
    requires forall k :: marks.Get(k).Some? ==> marks.Get(k).value <= |data|
  {
    Slice(Field, marks.Get(Field), data, |data|) + Slice(Value, marks.Get(Value), data, |data|)
      + Slice(Url, marks.Get(Url), data, |data|) + Slice(Body, marks.Get(Body), data, |data|)
  }

  lemma LeftoverDelivers(s: State, marks: Marks, data: seq<byte>, t0: seq<Event>, events: seq<Event>)
    requires data != [] && MarksFit(s, marks, |data|, |data|)
    ensures forall k :: marks.Get(k).Some? ==> marks.Get(k).value < |data|
    ensures EmitAll(t0, events + Leftover(marks, data)) == AllPending(EmitAll(t0, events), marks, data, |data|)
  {
    hide Emit, EmitAll, AllPending, Leftover;
    var k := if Collects(s).Some? then Collects(s).value else Body;
    var m := marks.Get(k);
    assert marks == NO_MARKS.With(k, m);
    OnePending(EmitAll(t0, events), k, m, data, |data|);
    OneLeftover(k, m, data);
    if m.Some? {
      EmitOneMore(t0, events, Data(k, data[m.value..|data|]));
    } else {
      assert events + [] == events;
    }
  }

  lemma OneLeftover(k: Kind, m: Option<nat>, data: seq<byte>)
    requires m.Some? ==> m.value < |data|
    ensures Leftover(NO_MARKS.With(k, m), data) == Slice(k, m, data, |data|)
  {}

  lemma StartsFit(s: State, data: seq<byte>, t0: seq<Event>)
    ensures MarksFit(s, StartMarks(s), 0, |data|) && AllPending(t0, StartMarks(s), data, 0) == t0
  {}

  /** The byte at `p` is counted, within the budget or not, and the switch executed. */
  lemma TurnStep(r0: Run, data: seq<byte>, p: nat, q: Parser, trace: seq<Event>)
    requires p < |data| && Good(q) && Upto(r0, data, p) == Live(q, trace, p)
    ensures Counted(q).nread > MAX_HEADER_SIZE && ParsingHeader(q.state) ==> Upto(r0, data, p + 1) == Failed
    ensures Counted(q).nread <= MAX_HEADER_SIZE ==>
      && AtSwitch(Counted(q))
      && Upto(r0, data, p + 1) == AfterSwitch(Counted(q), data[p], trace, p + 1)
    ensures !ParsingHeader(q.state) ==> Counted(q) == q && q.nread <= MAX_HEADER_SIZE
    ensures Counted(q).nread <= MAX_HEADER_SIZE && q.state == ChunkSizeStart ==> Counted(q).nread == 1
    ensures BodyState(q.state) ==> q.contentLength > 0
  {
    hide Exec, MethodString, AtSwitch, Good;
    UptoStep(r0, data, p);
    CountedFacts(q);
  }

  lemma CountedFacts(q: Parser)
    requires Good(q)
    ensures q.nread <= MAX_HEADER_SIZE && (Counted(q).nread <= MAX_HEADER_SIZE ==> AtSwitch(Counted(q)))
    ensures q.state == ChunkSizeStart ==> q.nread == 0
    ensures BodyState(q.state) ==> q.contentLength > 0
  {}

  /** One turn of the outer loop, from the byte at `p0` to the one at `p`. */
  method OneTurn(q0: Parser, data: seq<byte>, p0: nat, marks0: Marks, events0: seq<Event>, ghost r0: Run, ghost t0: seq<Event>)
    returns (q: Parser, p: nat, marks: Marks, events: seq<Event>, end: End)
    requires p0 < |data| < 0x8000_0000 && Good(q0) && MarksFit(q0.state, marks0, p0, |data|)
    requires Upto(r0, data, p0) == Live(q0, AllPending(EmitAll(t0, events0), marks0, data, p0), p0)
    ensures p0 <= p < |data|
    ensures end.Consumed? ==>
      && Good(q) && MarksFit(q.state, marks, p + 1, |data|)
      && Upto(r0, data, p + 1) == Live(q, AllPending(EmitAll(t0, events), marks, data, p + 1), p + 1)
    ensures end.LeftEarly? ==> Good(q) && Upto(r0, data, p + 1) == Left(q, EmitAll(t0, events), p + 1)
    ensures end.Failure? ==> end.errno != Ok && Over(r0, data) == Failed
  {
    hide Exec, Emit, EmitAll, MethodString, AfterSwitch, Advance, Arm, AtSwitch, Good, Resumed, AllPending, MarksFit;
    ghost var trace := AllPending(EmitAll(t0, events0), marks0, data, p0);
    TurnStep(r0, data, p0, q0, trace);
    q, p, marks, events := q0, p0, marks0, events0;
    if ParsingHeader(q.state) {
      GoodAtSwitch(q);
      WithinBudget(q);
      q := q.(nread := CountBytes(q.nread, 1));
      if q.nread > MAX_HEADER_SIZE {
        FailedStays(r0, data, p + 1);
        end := Failure(HeaderOverflow);
        return;
      }
      assert q == Counted(q0);
    }
    assert q.state == ChunkSizeStart ==> q.nread == 1;
    var scanned := Reexecute;
    if ScanState(q.state) {
      q, p, marks, events, scanned := Scan(q0, q, data, p0, marks0, events0, r0, t0);
    }
    match scanned {
      case Stopped => end := Consumed;
      case ScanError(errno) => end := Failure(errno);
      case Reexecute => q, marks, events, end := SwitchByte(q, data, p, marks, events, r0, t0);
    }
  }

  /** The switch for the byte at `p`, which has been counted. */
  method SwitchByte(q0: Parser, data: seq<byte>, p: nat, marks0: Marks, events0: seq<Event>, ghost r0: Run, ghost t0: seq<Event>)
    returns (q: Parser, marks: Marks, events: seq<Event>, end: End)
    requires p < |data| && AtSwitch(q0) && !ScanState(q0.state) && MarksFit(q0.state, marks0, p, |data|)
    requires Upto(r0, data, p + 1) == AfterSwitch(q0, data[p], AllPending(EmitAll(t0, events0), marks0, data, p), p + 1)
    ensures end.Consumed? ==>
      && Good(q) && MarksFit(q.state, marks, p + 1, |data|)
      && Upto(r0, data, p + 1) == Live(q, AllPending(EmitAll(t0, events), marks, data, p + 1), p + 1)
    ensures end.LeftEarly? ==> Good(q) && Upto(r0, data, p + 1) == Left(q, EmitAll(t0, events), p + 1)
    ensures end.Failure? ==> end.errno != Ok && Over(r0, data) == Failed
  {
    hide Exec, Emit, EmitAll, MethodString, AfterSwitch, Advance, Arm, AtSwitch, Good, Resumed, AllPending, MarksFit;
    q, marks, events, end := RunArms(q0, data, p, marks0, events0, t0);
    SwitchOutcome(q0, data[p], AllPending(EmitAll(t0, events0), marks0, data, p), p + 1);
    if end.Failure? {
      FailedStays(r0, data, p + 1);
    }
  }

  lemma WithinBudget(q: Parser)
    requires AtSwitch(q)
    ensures q.nread <= MAX_HEADER_SIZE
  {
    hide MethodString;
  }

  lemma SwitchOutcome(q: Parser, ch: byte, trace: seq<Event>, n: nat)
    requires AtSwitch(q)
    ensures BodyState(q.state) ==> q.contentLength > 0
    ensures var s := Exec(q, ch);
      && (s.Went? ==> Good(s.q) && AfterSwitch(q, ch, trace, n) == Live(s.q, EmitAll(trace, s.events), n))
      && (s.Quit? ==> Good(s.q) && AfterSwitch(q, ch, trace, n) == Left(s.q, EmitAll(trace, s.events), n))
      && (s.Erred? ==> s.errno != Ok && AfterSwitch(q, ch, trace, n) == Failed)
  {
    hide MethodString, EmitAll, Good;
    ExecKeeps(q, ch);
    RealError(q, ch);
  }

  lemma {:induction false} RealError(q: Parser, ch: byte)
    requires AtSwitch(q)
    ensures Exec(q, ch).Erred? ==> Exec(q, ch).errno != Ok
    decreases Rank(q.state)
  {
    hide MethodString, MarksAsStates, Arm, AtSwitch, Good, Quiet;
    LengthsAtSwitch(q);
    var a := Arm(q, ch);
    ArmKeeps(q, ch);
    if a.Again? {
      GoodAtSwitch(a.q);
      LengthsAtSwitch(a.q);
      RealError(a.q, ch);
    }
  }

  /** The three arms with inner loops. */
  method Scan(ghost q0: Parser, q1: Parser, data: seq<byte>, p0: nat, marks0: Marks, events0: seq<Event>,
              ghost r0: Run, ghost t0: seq<Event>)
    returns (q: Parser, p: nat, marks: Marks, events: seq<Event>, end: ScanEnd)
    requires p0 < |data| < 0x8000_0000 && Good(q0) && MarksFit(q0.state, marks0, p0, |data|)
    requires Upto(r0, data, p0) == Live(q0, AllPending(EmitAll(t0, events0), marks0, data, p0), p0)
    requires q1 == Counted(q0) && AtSwitch(q1) && ScanState(q1.state) && q1.nread <= MAX_HEADER_SIZE
    ensures p0 <= p && ScanDone(r0, data, t0, p, q, marks, events, end)
  {
    hide Exec, Emit, EmitAll, MethodString, AfterSwitch, Advance, Arm, AtSwitch, Good, Resumed;
    PendingOfState(q0.state, marks0, EmitAll(t0, events0), data, p0);
    if q1.state.HeaderField? {
      assert q0 == q1.(nread := q1.nread - 1);
      q, p, marks, events, end := ScanField(q1, data, p0, marks0, events0, r0, t0);
    } else if q1.state.HeaderValue? {
      assert q0 == q1.(nread := q1.nread - 1);
      q, p, marks, events, end := ScanValue(q1, data, p0, marks0, events0, r0, t0);
    } else {
      q, p, marks, events, end := ScanBody(q1, data, p0, events0, r0, t0);
    }
  }

  /**
    `http_parser_execute` on a nonempty input, for a parser without a pending error. The outcome is
    that of the byte-wise run from the trace `t0` of earlier callbacks: the same parser, the same
    number of bytes, and the same callbacks up to how data is cut into slices; and it errs iff the
    byte-wise run errs somewhere in the input. The header budget is kept whenever it does not err.
  */
  method Execute(q0: GoodParser, data: seq<byte>, ghost t0: seq<Event>)
    returns (q: Parser, consumed: nat, errno: Errno, events: seq<Event>)
    requires 0 < |data| < 0x8000_0000
    ensures match Over(Live(q0, t0, 0), data)
      case Live(q1, trace, n) => errno == Ok && q == q1 && EmitAll(t0, events) == trace && consumed == n == |data|
      case Left(q1, trace, n) => errno == Ok && q == q1 && EmitAll(t0, events) == trace && consumed == n <= |data|
      case Failed => errno != Ok
    ensures errno == Ok ==> Good(q) && q.nread <= MAX_HEADER_SIZE
    ensures consumed <= |data|
  {
    hide Exec, Emit, EmitAll, MethodString, AfterSwitch, Advance, Arm, AtSwitch, Good, Resumed;
    ghost var r0 := Live(q0, t0, 0);
    q, events, errno := q0, [], Ok;
    var p, marks := 0, StartMarks(q.state);
    StartsFit(q.state, data, t0);
    consumed := 0;
    EmitAllNone(t0);
    while p < |data|
      invariant p <= |data| && Good(q) && MarksFit(q.state, marks, p, |data|) && errno == Ok
      invariant Upto(r0, data, p) == Live(q, AllPending(EmitAll(t0, events), marks, data, p), p)
      decreases |data| - p
    {
      var end;
      q, p, marks, events, end := OneTurn(q, data, p, marks, events, r0, t0);
      if end.Failure? {
        errno, consumed := end.errno, p;
        return;
      }
      p := p + 1;
      if end.LeftEarly? {
        Ended(r0, data, p, |data|);
        consumed := p;
        GoodAtSwitch(q);
        WithinBudget(q);
        return;
      }
    }
    GoodAtSwitch(q);
    WithinBudget(q);
    AtMostOneMark(q.state, marks, p, |data|);
    LeftoverDelivers(q.state, marks, data, t0, events);
    events := events + Leftover(marks, data);
    consumed := |data|;
  }
}
