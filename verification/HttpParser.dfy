/** `struct http_parser` as an object, and requests that arrive in pieces. */
module HttpParserModule {
  import opened Bytes
  import opened HttpTypes
  import opened HttpStep
  import opened HttpRun
  import HttpExecute

  /** The run over pieces handed over one call at a time, until a call stops short. */
  function OverPieces(r: Run, pieces: seq<seq<byte>>): Run
    decreases |pieces|
  {
    if pieces == [] || !r.Live? then r else OverPieces(Over(r, pieces[0]), pieces[1..])
  }

  /** Buffering does not matter: pieces are parsed like the stream they make up. */
  lemma {:induction false} PiecesLikeWhole(r: Run, pieces: seq<seq<byte>>)
    ensures OverPieces(r, pieces) == Over(r, Concat(pieces))
    decreases |pieces|
  {
    hide StepByte, Resumed;
    if !r.Live? {
      Ended(r, Concat(pieces), 0, |Concat(pieces)|);
    } else if pieces != [] {
      OverAppend(r, pieces[0], Concat(pieces[1..]));
      PiecesLikeWhole(Over(r, pieces[0]), pieces[1..]);
    }
  }

  /** However the same stream is cut, the run is the same. */
  lemma BufferingIndependence(r: Run, pieces: seq<seq<byte>>, others: seq<seq<byte>>)
    requires Concat(pieces) == Concat(others)
    ensures OverPieces(r, pieces) == OverPieces(r, others)
  {
    PiecesLikeWhole(r, pieces);
    PiecesLikeWhole(r, others);
  }

  /** The callbacks made, adjacent data of one kind concatenated. */
  function Canonical(log: seq<Event>): seq<Event> {
    EmitAll([], log)
  }

  class HttpParser {
    var state: State
    var headerState: HeaderState
    var index: nat
    var flags: Flags
    var nread: nat
    var contentLength: nat
    var httpMajor: nat
    var httpMinor: nat
    var meth: Method
    var upgrade: bool
    var errno: Errno
    // Every callback made so far, in order.
    ghost var log: seq<Event>

    ghost function View(): Parser
      reads this
    {
      Parser(state, headerState, index, flags, nread, contentLength, httpMajor, httpMinor, meth, upgrade)
    }

    ghost predicate Valid()
      reads this
    {
      errno == Ok ==> Good(View())
    }

    /** Where a run from here starts. */
    ghost function Here(): Run
      reads this
      requires Valid()
    {
      if errno == Ok then Live(View(), Canonical(log), 0) else Failed
    }

    /** `http_parser_init`. */
    constructor ()
      ensures Valid() && errno == Ok && View() == INITIAL && log == []
    {
      state, headerState, index, flags, nread := StartReq, General, 0, NO_FLAGS, 0;
      contentLength, httpMajor, httpMinor, meth, upgrade := 0, 0, 0, DELETE, false;
      errno, log := Ok, [];
    }

    method Store(q: Parser)
      modifies this
      ensures View() == q && errno == old(errno) && log == old(log)
    {
      state, headerState, index, flags, nread := q.state, q.headerState, q.index, q.flags, q.nread;
      contentLength, httpMajor, httpMinor, meth, upgrade := q.contentLength, q.major, q.minor, q.meth, q.upgrade;
    }

    /** What one call with input comes to: `r` is the byte-wise run over that input. */
    ghost predicate Reached(r: Run, consumed: nat)
      reads this
      requires Valid()
    {
      match r
      case Live(q, trace, n) => errno == Ok && View() == q && Canonical(log) == trace && consumed == n
      case Left(q, trace, n) => errno == Ok && View() == q && Canonical(log) == trace && consumed == n
      case Failed => errno != Ok
    }

    /** `http_parser_execute`; an empty input signals EOF. */
    method Execute(data: seq<byte>) returns (consumed: nat)
      requires Valid() && |data| < 0x8000_0000
      modifies this
      ensures Valid()
      ensures old(errno) != Ok ==> consumed == 0 && errno == old(errno) && View() == old(View()) && log == old(log)
      ensures old(errno) == Ok && data == [] ==>
        && View() == old(View()) && log == old(log)
        && if old(state) == Dead || old(state) == StartReq then consumed == 0 && errno == Ok
           else consumed == 1 && errno == InvalidEofState
      ensures old(errno) == Ok && data != [] ==> Reached(Over(old(Here()), data), consumed)
      ensures old(errno) == Ok && data != [] && Over(old(Here()), data).Live? ==> consumed == |data|
      ensures data != [] ==> consumed <= |data|
    {
      hide StepByte, Resumed, Good, AtSwitch, Advance, EmitAll;
      if errno != Ok {
        return 0;
      }
      if data == [] {
        if state == Dead || state == StartReq {
          return 0;
        }
        errno := InvalidEofState;
        return 1;
      }
      ghost var before := Canonical(log);
      var q0 := Parser(state, headerState, index, flags, nread, contentLength, httpMajor, httpMinor, meth, upgrade);
      var q, events;
      q, consumed, errno, events := HttpExecute.Execute(q0, data, before);
      Store(q);
      EmitAllAppend([], log, events);
      log := log + events;
    }

    /**
      A request that arrives in nonempty pieces, each handed over by a call of its own, stopping when
      a call does not take its whole piece: the outcome is that of the whole stream in one call.
    */
    method ExecuteAll(pieces: seq<seq<byte>>) returns (consumed: nat)
      requires Valid() && errno == Ok && Quiet(View())
      requires forall piece :: piece in pieces ==> 0 < |piece| < 0x8000_0000
      modifies this
      ensures Valid() && Reached(Over(old(Here()), Concat(pieces)), consumed)
    {
      hide StepByte, Resumed, Good, AtSwitch, Advance, EmitAll;
      ghost var start := Here();
      consumed := 0;
      var i := 0;
      ghost var r := start;
      while i < |pieces|
        invariant i <= |pieces| && Valid()
        invariant r.Live? && Quiet(r.q) && Reached(r, consumed)
        invariant OverPieces(start, pieces) == OverPieces(r, pieces[i..])
      {
        ghost var next := Over(r, pieces[i]);
        ghost var here := Here();
        Shifted(r, here, pieces[i]);
        var n := Execute(pieces[i]);
        consumed := consumed + n;
        r := next;
        i := i + 1;
        assert pieces[i - 1..][1..] == pieces[i..];
        RunQuiet(here, pieces[i - 1], |pieces[i - 1]|);
        if errno != Ok || (upgrade && (state == StartReq || state == Dead)) {
          assert OverPieces(r, pieces[i..]) == r;
          PiecesLikeWhole(start, pieces);
          return;
        }
      }
      PiecesLikeWhole(start, pieces);
    }
  }

  /** The byte count of a run only adds up. */
  function Counting(r: Run, n: nat): Run {
    match r
    case Live(q, trace, k) => Live(q, trace, k + n)
    case Left(q, trace, k) => Left(q, trace, k + n)
    case Failed => Failed
  }

  lemma {:induction false} CountShifts(r: Run, n: nat, data: seq<byte>, i: nat)
    requires i <= |data|
    ensures Upto(Counting(r, n), data, i) == Counting(Upto(r, data, i), n)
  {
    hide StepByte;
    if i > 0 {
      CountShifts(r, n, data, i - 1);
      UptoStep(r, data, i - 1);
      UptoStep(Counting(r, n), data, i - 1);
    }
  }

  lemma Shifted(r: Run, here: Run, data: seq<byte>)
    requires r.Live? && here == Live(r.q, r.trace, 0)
    ensures Over(r, data) == Counting(Over(here, data), r.n)
  {
    CountShifts(here, r.n, data, |data|);
  }
}
