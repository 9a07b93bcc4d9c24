/** Following a log that only grows: whole lines, once each, across restarts. */
module LogTailer {
  import opened Basics

  type Bytes = seq<bv8>

  const NEWLINE: bv8 := 10

  /** A stretch of the file. */
  datatype Span = Span(from: nat, to: nat)

  ghost predicate IsLine(file: Bytes, s: Span) {
    && s.from < s.to <= |file| && file[s.to - 1] == NEWLINE
    && forall i :: s.from <= i < s.to - 1 ==> file[i] != NEWLINE
  }

  /** Where a read from `from` stops: after the next newline, or at the end of the file. */
  function LineEnd(file: Bytes, from: nat): (to: nat)
    requires from <= |file|
    ensures from <= to <= |file| && (from < |file| ==> from < to)
    decreases |file| - from
  {
    if from == |file| then from
    else if file[from] == NEWLINE then from + 1
    else LineEnd(file, from + 1)
  }

  lemma {:induction false} LineEndSpec(file: Bytes, from: nat)
    requires from <= |file|
    ensures forall i :: from <= i < LineEnd(file, from) - 1 ==> file[i] != NEWLINE
    ensures LineEnd(file, from) < |file| ==> file[LineEnd(file, from) - 1] == NEWLINE
    decreases |file| - from
  {
    if from < |file| && file[from] != NEWLINE { LineEndSpec(file, from + 1); }
  }

  /** A line is found whole by a read from its start, and stays the same while the file grows. */
  lemma {:induction false} LineFound(file: Bytes, s: Span)
    requires IsLine(file, s)
    ensures LineEnd(file, s.from) == s.to
    decreases s.to - s.from
  {
    if s.from < s.to - 1 { LineFound(file, Span(s.from + 1, s.to)); }
  }

  lemma LineStays(file: Bytes, more: Bytes, s: Span)
    requires IsLine(file, s)
    ensures IsLine(file + more, s)
  {
  }

  // ------------------------------------------------------------ specification

  /**
   * A tailer: where it will read next, the offset it has stored, the end of the line its consumer
   * still holds. `start`, `lines` and `frontier` record where this process began, what it has
   * emitted since, and how far any process has ever emitted; `reread`, whether one was ever told to read
   * the file again from its beginning.
   */
  datatype Tail = Tail(
    position: nat,
    stored: nat,
    flight: Option<nat>,
    start: nat,
    lines: seq<Span>,
    frontier: nat,
    reread: bool
  )

  function OpenAt(file: Bytes, stored: nat): nat {
    if stored <= |file| then stored else 0
  }

  /** The consumer comes back for more: the line it held is behind it. */
  function Resumed(t: Tail): Tail {
    if t.flight.Some? then t.(stored := t.flight.value, flight := None) else t
  }

  /** One turn of the loop: the next line, or nothing while it is incomplete or missing. */
  function Poll(file: Bytes, t: Tail, follow: bool): (Option<Span>, Tail)
    requires t.position <= |file|
  {
    var t' := Resumed(t);
    var to := LineEnd(file, t.position);
    if to == t.position || (follow && file[to - 1] != NEWLINE) then (None, t')
    else
      var s := Span(t.position, to);
      (Some(s),
       t'.(position := to, flight := Some(to), lines := t.lines + [s],
           frontier := if t.frontier < to then to else t.frontier))
  }

  /** A new process, told to read from the beginning or not; the stored offset stays as it is. */
  function Restarted(file: Bytes, t: Tail, fromStart: bool): Tail {
    var at := if fromStart then 0 else OpenAt(file, t.stored);
    t.(position := at, flight := None, start := at, lines := [], reread := t.reread || fromStart)
  }

  // ---------------------------------------------------------------- the code

  class Tailer {
    const follow: bool
    const fromStart: bool
    var position: nat
    var stored: nat
    var flight: Option<nat>
    ghost var start: nat
    ghost var lines: seq<Span>
    ghost var frontier: nat
    ghost var reread: bool

    constructor (file: Bytes, follow: bool, fromStart: bool, stored: nat)
      ensures this.follow == follow && this.fromStart == fromStart
      ensures var at := if fromStart then 0 else OpenAt(file, stored);
              View() == Tail(at, stored, None, at, [], OpenAt(file, stored), fromStart)
      ensures stored <= |file| ==> Inv(file, View())
    {
      this.follow, this.fromStart, this.stored := follow, fromStart, stored;
      var at := if fromStart then 0 else OpenAt(file, stored);
      position, flight, start, lines, frontier, reread := at, None, at, [], OpenAt(file, stored), fromStart;
    }

    ghost function View(): Tail
      reads this
    {
      Tail(position, stored, flight, start, lines, frontier, reread)
    }

    method ReadLine(file: Bytes, from: nat) returns (to: nat)
      requires from <= |file|
      ensures to == LineEnd(file, from)
    {
      to := from;
      while to < |file|
        invariant from <= to <= |file| && LineEnd(file, to) == LineEnd(file, from)
      {
        to := to + 1;
        if file[to - 1] == NEWLINE { return; }
      }
    }

    method Next(file: Bytes) returns (line: Option<Bytes>)
      requires position <= |file|
      modifies this
      ensures View() == Poll(file, old(View()), follow).1
      ensures line == match Poll(file, old(View()), follow).0
                      case None => None
                      case Some(s) => Some(file[s.from..s.to])
    {
      if flight.Some? {
        stored := flight.value;
        flight := None;
      }
      var from := position;
      var to := ReadLine(file, from);
      position := to;
      if to == from { return None; }
      if file[to - 1] != NEWLINE && follow {
        position := from;
        return None;
      }
      flight := Some(to);
      lines := lines + [Span(from, to)];
      frontier := if frontier < to then to else frontier;
      return Some(file[from..to]);
    }

    /** The consumer stores the offset of the line it has dealt with, before it asks for the next. */
    method Confirm()
      modifies this`stored, this`flight
      ensures View() == Resumed(old(View()))
    {
      if flight.Some? {
        stored := flight.value;
        flight := None;
      }
    }

    method Restart(file: Bytes)
      modifies this
      ensures View() == Restarted(file, old(View()), fromStart)
    {
      position := if fromStart then 0 else stored;
      if position > |file| { position := 0; }
      flight, start, lines, reread := None, position, [], reread || fromStart;
    }
  }

  // ------------------------------------------------------------ what it keeps

  /** Consecutive lines from `from` to `to`. */
  ghost predicate Chain(lines: seq<Span>, from: nat, to: nat) {
    if lines == [] then from == to
    else lines[|lines| - 1].to == to && Chain(lines[..|lines| - 1], from, lines[|lines| - 1].from)
  }

  ghost predicate AllLines(file: Bytes, lines: seq<Span>) {
    forall s <- lines :: IsLine(file, s)
  }

  /** A process reads the file again and has stored no offset yet: the stored one is an earlier process's. */
  ghost predicate Untouched(t: Tail) {
    t.reread && t.start == 0 && |t.lines| == (if t.flight.Some? then 1 else 0) && t.stored <= t.frontier
  }

  /** No process was told to read again: none is behind by more than one line. */
  ghost predicate Near(file: Bytes, t: Tail) {
    && (t.flight.Some? ==> t.frontier == t.position)
    && (t.frontier == t.position || IsLine(file, Span(t.position, t.frontier)))
  }

  /**
   * What this process emitted is the file from its start up to a line end. The stored offset is
   * behind by exactly the line in flight, and a restarted process by at most one line.
   */
  ghost predicate Inv(file: Bytes, t: Tail) {
    && t.position <= t.frontier <= |file|
    && Chain(t.lines, t.start, t.position) && AllLines(file, t.lines)
    && (t.flight == None || t.flight == Some(t.position))
    && (Untouched(t) || if t.flight.None? then t.stored == t.position else IsLine(file, Span(t.stored, t.position)))
    && (t.reread || Near(file, t))
  }

  lemma {:induction false} ChainFlat(file: Bytes, lines: seq<Span>, from: nat, to: nat)
    requires Chain(lines, from, to) && AllLines(file, lines) && to <= |file|
    ensures from <= to && Flat(file, lines) == file[from..to]
    decreases |lines|
  {
    if lines != [] {
      var front, last := lines[..|lines| - 1], lines[|lines| - 1];
      assert IsLine(file, last);
      ChainFlat(file, front, from, last.from);
      assert file[from..last.from] + file[last.from..to] == file[from..to];
    }
  }

  /** The bytes of the emitted lines, in order. */
  function Flat(file: Bytes, lines: seq<Span>): Bytes
    requires forall s <- lines :: s.from <= s.to <= |file|
  {
    if lines == [] then []
    else
      var last := lines[|lines| - 1];
      Flat(file, lines[..|lines| - 1]) + file[last.from..last.to]
  }

  /** Coming back for more, or giving the line back to be finished, keeps the invariant. */
  lemma ResumeKeeps(file: Bytes, t: Tail)
    requires Inv(file, t)
    ensures Inv(file, Resumed(t))
  {
  }

  lemma ChainGrows(lines: seq<Span>, from: nat, s: Span)
    requires Chain(lines, from, s.from)
    ensures Chain(lines + [s], from, s.to)
  {
    assert (lines + [s])[..|lines|] == lines;
  }

  /** The line emitted is the one that starts where the last ended, so no process emits past another's line. */
  lemma EmitKeeps(file: Bytes, t: Tail, s: Span)
    requires Inv(file, t) && t.flight.None? && IsLine(file, s) && s.from == t.position
    ensures Inv(file, t.(position := s.to, flight := Some(s.to), lines := t.lines + [s],
                         frontier := if t.frontier < s.to then s.to else t.frontier))
  {
    ChainGrows(t.lines, t.start, s);
    if !t.reread && t.frontier != t.position {
      LineFound(file, Span(t.position, t.frontier));
      LineFound(file, s);
    }
  }

  lemma PollKeeps(file: Bytes, t: Tail)
    requires Inv(file, t)
    ensures var (line, t') := Poll(file, t, true);
            && Inv(file, t')
            && (line.Some? ==> IsLine(file, line.value) && line.value.from == t.position)
  {
    ResumeKeeps(file, t);
    LineEndSpec(file, t.position);
    var line := Poll(file, t, true).0;
    if line.Some? { EmitKeeps(file, Resumed(t), line.value); }
  }

  lemma {:induction false} AppendKeeps(file: Bytes, more: Bytes, t: Tail)
    requires Inv(file, t)
    ensures Inv(file + more, t)
  {
    forall s | s in t.lines ensures IsLine(file + more, s) {
      LineStays(file, more, s);
    }
    if t.flight.Some? && !Untouched(t) { LineStays(file, more, Span(t.stored, t.position)); }
    if !t.reread && t.frontier != t.position { LineStays(file, more, Span(t.position, t.frontier)); }
  }

  /**
   * A restart resumes at the stored offset: nothing is skipped, and at most one line comes again, unless the
   * process before was reading the file again and had stored no offset of its own. Told to read from the
   * beginning, it does.
   */
  lemma RestartKeeps(file: Bytes, t: Tail, fromStart: bool)
    requires Inv(file, t)
    ensures var t' := Restarted(file, t, fromStart);
            && Inv(file, t') && t'.position <= t.frontier == t'.frontier
            && (fromStart ==> t'.position == 0)
            && (!fromStart && !Untouched(t) ==>
                  t'.position == t.position || IsLine(file, Span(t'.position, t.position)))
            && (!fromStart && !t.reread ==>
                  t'.position == t.frontier || IsLine(file, Span(t'.position, t.frontier)))
  {
  }

  datatype Event = Append(bytes: Bytes) | PollOnce | ConfirmLine | RestartProcess(fromStart: bool)

  function RunTail(file: Bytes, t: Tail, events: seq<Event>): (Bytes, Tail)
    requires t.position <= |file|
    decreases |events|
  {
    if events == [] then (file, t)
    else
      match events[0]
      case Append(more) => RunTail(file + more, t, events[1..])
      case PollOnce => RunTail(file, Poll(file, t, true).1, events[1..])
      case ConfirmLine => RunTail(file, Resumed(t), events[1..])
      case RestartProcess(fromStart) => RunTail(file, Restarted(file, t, fromStart), events[1..])
  }

  /**
   * Under any schedule of appends, polls and restarts of a follower: what the current process has
   * emitted is, byte for byte, the file from where it started to a line end.
   */
  lemma {:induction false} RunEmitsWholeLines(file: Bytes, t: Tail, events: seq<Event>)
    requires Inv(file, t)
    ensures var (file', t') := RunTail(file, t, events);
            && Inv(file', t') && file <= file' && t.frontier <= t'.frontier
            && t'.start <= t'.position && Flat(file', t'.lines) == file'[t'.start..t'.position]
    decreases |events|
  {
    if events == [] {
      ChainFlat(file, t.lines, t.start, t.position);
    } else {
      match events[0] {
        case Append(more) =>
          AppendKeeps(file, more, t);
          RunEmitsWholeLines(file + more, t, events[1..]);
        case PollOnce =>
          PollKeeps(file, t);
          RunEmitsWholeLines(file, Poll(file, t, true).1, events[1..]);
        case ConfirmLine =>
          RunEmitsWholeLines(file, Resumed(t), events[1..]);
        case RestartProcess(fromStart) =>
          RestartKeeps(file, t, fromStart);
          RunEmitsWholeLines(file, Restarted(file, t, fromStart), events[1..]);
      }
    }
  }

  /**
   * The guarantee above is for followers. Without follow, what a poll emits is not a line exactly when
   * the file goes on after the position with no newline: the unfinished end a follower waits for.
   */
  lemma UnfinishedLineIff(file: Bytes, t: Tail)
    requires t.position <= |file|
    ensures var (waits, emits) := (Poll(file, t, true).0, Poll(file, t, false).0);
            var unfinished := t.position < |file| && forall i :: t.position <= i < |file| ==> file[i] != NEWLINE;
            && (emits.Some? && !IsLine(file, emits.value) <==> unfinished)
            && (unfinished ==> waits.None? && emits == Some(Span(t.position, |file|)))
            && (!unfinished ==> waits == emits)
  {
    LineEndSpec(file, t.position);
    var to := LineEnd(file, t.position);
    if to < |file| || (t.position < to && file[to - 1] == NEWLINE) { assert file[to - 1] == NEWLINE; }
  }
}
