/** NdjsonWriter: lines collected in a 64 KB buffer that is drained at 80 %, under one lock, with a
    cap on the number of ordinary events.

    Nobody outside can tell the buffer from a plain log.  Whatever order several writers take the lock in,
    file and buffer together are the lines appended under it in that order, cut between two lines
    (`LockedLog`, `CutBetweenLines`).  The cap is looked at outside the lock: which capped lines are appended is
    exact for requests that do not overlap (`SimpleLog`), and `EventCap` is about those that do. */
module NdjsonWriter {
  import opened Options

  type Line = string

  const BUFFER_SIZE := 64 * 1024
  const FLUSH_AT := BUFFER_SIZE * 80 / 100
  /** The size of the stack buffer each writer formats its line in. */
  const LINE_SIZE := 2048

  function Concat(lines: seq<Line>): string {
    if lines == [] then "" else Concat(lines[..|lines| - 1]) + lines[|lines| - 1]
  }

  // ---- The log ----

  /** The accepted lines, split into those in the file and those still in the buffer. */
  datatype Log = Log(written: seq<Line>, pending: seq<Line>) {
    function All(): seq<Line> {
      written + pending
    }

    function Drained(): Log {
      Log(written + pending, [])
    }

    function Appended(line: Line): Log {
      if line == "" then this
      else
        var ready := if |Concat(pending)| + |line| > FLUSH_AT then Drained() else this;
        if |line| > BUFFER_SIZE then Log(ready.written + [line], ready.pending)
        else Log(ready.written, ready.pending + [line])
    }
  }

  /** What is done while the lock is held: an append, counted or not, or a drain. */
  datatype Section = Append(line: Line, counted: bool) | Drain

  function Held(s: State, x: Section): State {
    match x
    case Append(line, counted) => State(s.log.Appended(line), s.eventCount + if counted then 1 else 0)
    case Drain => s.(log := s.log.Drained())
  }

  function AfterAll(xs: seq<Section>): State {
    if xs == [] then EMPTY else Held(AfterAll(xs[..|xs| - 1]), xs[|xs| - 1])
  }

  /** What a caller asks for: an event under the cap, one outside it (garbage collections, statistics,
      session metadata), or a flush. */
  datatype Request = Capped(line: Line) | Free(line: Line) | Flush

  datatype State = State(log: Log, eventCount: nat)

  const EMPTY := State(Log([], []), 0)

  predicate InSize(line: Line) {
    0 < |line| < LINE_SIZE
  }

  predicate LimitReached(maxEvents: int, eventCount: nat) {
    maxEvents > 0 && eventCount >= maxEvents
  }

  /** The section a request comes to, if its check and its section are not separated. */
  function SectionOf(maxEvents: int, eventCount: nat, r: Request): Option<Section> {
    match r
    case Capped(line) =>
      if LimitReached(maxEvents, eventCount) || !InSize(line) then None else Some(Append(line, true))
    case Free(line) => if InSize(line) then Some(Append(line, false)) else None
    case Flush => Some(Drain)
  }

  function Served(maxEvents: int, s: State, r: Request): State {
    match SectionOf(maxEvents, s.eventCount, r)
    case None => s
    case Some(x) => Held(s, x)
  }

  function After(maxEvents: int, rs: seq<Request>): State {
    if rs == [] then EMPTY else Served(maxEvents, After(maxEvents, rs[..|rs| - 1]), rs[|rs| - 1])
  }

  // ---- The class ----

  class Writer {
    const maxEvents: int
    const buffer: array<char>
    var bufferPos: nat
    var eventCount: nat
    /** What the operating system has been given so far. */
    var file: string
    ghost var log: Log

    ghost predicate Valid()
      reads this, buffer
    {
      && buffer.Length == BUFFER_SIZE && bufferPos <= BUFFER_SIZE
      && file == Concat(log.written)
      && buffer[..bufferPos] == Concat(log.pending)
    }

    constructor (maxEvents: int)
      ensures Valid() && fresh(buffer) && this.maxEvents == maxEvents
      ensures State(log, eventCount) == EMPTY
    {
      this.maxEvents := maxEvents;
      buffer := new char[BUFFER_SIZE];
      bufferPos, eventCount, file := 0, 0, "";
      log := Log([], []);
    }

    predicate CheckEventLimit()
      reads this
    {
      LimitReached(maxEvents, eventCount)
    }

    method WriteOut()
      requires Valid()
      modifies this`file, this`bufferPos, this`log
      ensures Valid() && log == old(log).Drained() && bufferPos == 0
    {
      ConcatAppend(log.written, log.pending);
      file := file + buffer[..bufferPos];
      bufferPos := 0;
      log := log.Drained();
    }

    method AppendToBuffer(data: Line)
      requires Valid()
      modifies this`file, this`bufferPos, this`log, buffer
      ensures Valid() && log == old(log).Appended(data)
    {
      if |data| == 0 {
        return;
      }
      if bufferPos + |data| > FLUSH_AT {
        if bufferPos > 0 {
          WriteOut();
        } else {
          NothingPending(log);
          log := log.Drained();
        }
      }
      if |data| > BUFFER_SIZE {
        assert bufferPos == 0;
        ConcatSnoc(log.written, data);
        file := file + data;
        log := Log(log.written + [data], log.pending);
        return;
      }
      Place(data);
    }

    /** memcpy into the free part of the buffer. */
    method Place(data: Line)
      requires Valid() && bufferPos + |data| <= BUFFER_SIZE
      modifies this`bufferPos, this`log, buffer
      ensures Valid() && log == Log(old(log).written, old(log).pending + [data])
    {
      ghost var before := buffer[..bufferPos];
      forall i | 0 <= i < |data| {
        buffer[bufferPos + i] := data[i];
      }
      assert buffer[..bufferPos + |data|] == before + data;
      ConcatSnoc(log.pending, data);
      bufferPos := bufferPos + |data|;
      log := Log(log.written, log.pending + [data]);
    }

    method Flush()
      requires Valid()
      modifies this`file, this`bufferPos, this`log
      ensures Valid() && State(log, eventCount) == Served(maxEvents, old(State(log, eventCount)), Request.Flush)
      ensures file == Concat(log.All())
    {
      assert log.Drained().All() == log.Drained().written == log.All();
      if bufferPos == 0 {
        NothingPending(log);
        log := log.Drained();
        return;
      }
      WriteOut();
    }

    method WriteLockedEvent(line: Line)
      requires Valid()
      modifies this, buffer
      ensures Valid() && State(log, eventCount) == Held(old(State(log, eventCount)), Append(line, true))
    {
      AppendToBuffer(line);
      eventCount := eventCount + 1;
    }

    /** Enter, leave, exception, allocation and contention events. */
    method WriteCapped(line: Line)
      requires Valid()
      modifies this, buffer
      ensures Valid() && State(log, eventCount) == Served(maxEvents, old(State(log, eventCount)), Capped(line))
    {
      if CheckEventLimit() {
        return;
      }
      if |line| > 0 && |line| < LINE_SIZE {
        WriteLockedEvent(line);
      }
    }

    /** Session metadata, garbage collection and statistics lines. */
    method WriteFree(line: Line)
      requires Valid()
      modifies this`file, this`bufferPos, this`log, buffer
      ensures Valid() && State(log, eventCount) == Served(maxEvents, old(State(log, eventCount)), Free(line))
    {
      if |line| > 0 && |line| < LINE_SIZE {
        AppendToBuffer(line);
      }
    }
  }

  // ---- Concatenation ----

  lemma ConcatSnoc(lines: seq<Line>, line: Line)
    ensures Concat(lines + [line]) == Concat(lines) + line
  {
    assert (lines + [line])[..|lines|] == lines;
  }

  lemma {:induction false} ConcatAppend(a: seq<Line>, b: seq<Line>)
    ensures Concat(a + b) == Concat(a) + Concat(b)
  {
    if b == [] {
      assert a + b == a;
    } else {
      var front, last := b[..|b| - 1], b[|b| - 1];
      assert a + b == (a + front) + [last];
      ConcatAppend(a, front);
      ConcatSnoc(a + front, last);
    }
  }

  /** An empty buffer holds no line, so draining it changes nothing that matters. */
  lemma NothingPending(log: Log)
    requires Concat(log.pending) == ""
    ensures Concat(log.Drained().written) == Concat(log.written)
  {
    ConcatAppend(log.written, log.pending);
  }

  // ---- The log of any order of locked sections ----

  /** Every line fits the buffer it is formatted in, or its section is not entered. */
  predicate Fit(xs: seq<Section>) {
    forall i :: 0 <= i < |xs| && xs[i].Append? ==> InSize(xs[i].line)
  }

  function AppendedLines(xs: seq<Section>): seq<Line> {
    if xs == [] then []
    else
      var last := xs[|xs| - 1];
      AppendedLines(xs[..|xs| - 1]) + if last.Append? then [last.line] else []
  }

  function CountedLines(xs: seq<Section>): nat {
    if xs == [] then 0
    else
      var last := xs[|xs| - 1];
      CountedLines(xs[..|xs| - 1]) + if last.Append? && last.counted then 1 else 0
  }

  lemma AppendedInSize(log: Log, line: Line)
    requires InSize(line)
    ensures log.Appended(line).All() == log.All() + [line]
    ensures log.written <= log.Appended(line).written
  {
  }

  /** Whatever the buffer did in between and whoever took the lock when, the log is the lines appended,
      in that order, and the counter is the number of counted ones. */
  lemma {:induction false} LockedLog(xs: seq<Section>)
    requires Fit(xs)
    ensures AfterAll(xs).log.All() == AppendedLines(xs) && AfterAll(xs).eventCount == CountedLines(xs)
  {
    if xs != [] {
      var before, last := xs[..|xs| - 1], xs[|xs| - 1];
      LockedLog(before);
      if last.Append? {
        AppendedInSize(AfterAll(before).log, last.line);
      }
    }
  }

  // ---- The file ends on a line boundary, the buffer is never overrun ----

  predicate Terminated(s: string) {
    s == "" || s[|s| - 1] == '\n'
  }

  lemma {:induction false} TerminatedLines(lines: seq<Line>)
    requires forall i :: 0 <= i < |lines| ==> Terminated(lines[i])
    ensures Terminated(Concat(lines))
  {
    if lines != [] {
      TerminatedLines(lines[..|lines| - 1]);
    }
  }

  /** At every moment the file holds whole lines, the oldest ones appended, and the buffer the rest. */
  lemma CutBetweenLines(xs: seq<Section>)
    requires Fit(xs) && forall i :: 0 <= i < |AppendedLines(xs)| ==> Terminated(AppendedLines(xs)[i])
    ensures var log := AfterAll(xs).log;
            && log.written <= AppendedLines(xs)
            && Terminated(Concat(log.written))
            && Concat(log.written) + Concat(log.pending) == Concat(AppendedLines(xs))
  {
    var log := AfterAll(xs).log;
    LockedLog(xs);
    forall i | 0 <= i < |log.written| ensures Terminated(log.written[i]) {
      assert log.written[i] == AppendedLines(xs)[i];
    }
    TerminatedLines(log.written);
    ConcatAppend(log.written, log.pending);
  }

  /** The buffer never holds more than 80 % of its size. */
  lemma {:induction false} StaysBelowThreshold(xs: seq<Section>)
    requires Fit(xs)
    ensures |Concat(AfterAll(xs).log.pending)| <= FLUSH_AT == 52428
  {
    if xs != [] {
      StaysBelowThreshold(xs[..|xs| - 1]);
    }
  }

  /** A line forces the buffer out exactly if the two together exceed eighty percent of its size. */
  lemma WritesIff(xs: seq<Section>, line: Line, counted: bool)
    requires Fit(xs) && InSize(line)
    ensures Held(AfterAll(xs), Append(line, counted)).log.written != AfterAll(xs).log.written
       <==> |Concat(AfterAll(xs).log.pending)| + |line| > 52428
  {
    StaysBelowThreshold(xs);
    var log := AfterAll(xs).log;
    ConcatAppend(log.written, log.pending);
  }

  /** Only large writes: when a line forces the buffer out, more than 50 000 bytes are in it. */
  lemma WritesAreLarge(xs: seq<Section>, line: Line, counted: bool)
    requires InSize(line)
    requires Held(AfterAll(xs), Append(line, counted)).log.written != AfterAll(xs).log.written
    ensures |Concat(Held(AfterAll(xs), Append(line, counted)).log.written)|
          > |Concat(AfterAll(xs).log.written)| + 50000
  {
    var log := AfterAll(xs).log;
    ConcatAppend(log.written, log.pending);
  }

  /** Once the writer has flushed, as its destructor does, the file is the whole log. */
  lemma FlushedFile(xs: seq<Section>)
    requires Fit(xs)
    ensures AfterAll(xs + [Drain]).log == Log(AppendedLines(xs), [])
  {
    assert (xs + [Drain])[..|xs|] == xs;
    LockedLog(xs);
  }

  // ---- Requests one at a time ----

  function SectionsOf(maxEvents: int, rs: seq<Request>): seq<Section> {
    if rs == [] then []
    else
      var before := SectionsOf(maxEvents, rs[..|rs| - 1]);
      match SectionOf(maxEvents, After(maxEvents, rs[..|rs| - 1]).eventCount, rs[|rs| - 1])
      case None => before
      case Some(x) => before + [x]
  }

  /** The capped events of `rs` that fit their line buffer. */
  function Attempts(rs: seq<Request>): nat {
    if rs == [] then 0
    else
      var last := rs[|rs| - 1];
      Attempts(rs[..|rs| - 1]) + if last.Capped? && InSize(last.line) then 1 else 0
  }

  /** Which lines should be in the log: every free line, and the first `maxEvents` capped ones. */
  predicate Wanted(maxEvents: int, before: seq<Request>, r: Request) {
    !r.Flush? && InSize(r.line) && (r.Capped? ==> maxEvents <= 0 || Attempts(before) < maxEvents)
  }

  function Wants(maxEvents: int, rs: seq<Request>): seq<Line> {
    if rs == [] then []
    else
      var before, last := rs[..|rs| - 1], rs[|rs| - 1];
      Wants(maxEvents, before) + if Wanted(maxEvents, before, last) then [last.line] else []
  }

  lemma {:induction false} RequestsAreSections(maxEvents: int, rs: seq<Request>)
    ensures Fit(SectionsOf(maxEvents, rs)) && After(maxEvents, rs) == AfterAll(SectionsOf(maxEvents, rs))
  {
    if rs != [] {
      RequestsAreSections(maxEvents, rs[..|rs| - 1]);
    }
  }

  lemma {:induction false} CountStops(maxEvents: int, rs: seq<Request>)
    ensures After(maxEvents, rs).eventCount == if 0 < maxEvents <= Attempts(rs) then maxEvents else Attempts(rs)
  {
    if rs != [] {
      CountStops(maxEvents, rs[..|rs| - 1]);
    }
  }

  /** A line is taken if and only if it has 1 to 2047 bytes, the capped ones up to the cap; one that is not
      changes nothing. */
  lemma TakenIff(maxEvents: int, rs: seq<Request>, r: Request)
    requires !r.Flush?
    ensures var before, after := After(maxEvents, rs), After(maxEvents, rs + [r]);
            var taken := 1 <= |r.line| <= 2047 && (r.Capped? ==> maxEvents <= 0 || before.eventCount < maxEvents);
            && after.log.All() == before.log.All() + (if taken then [r.line] else [])
            && after.eventCount == before.eventCount + (if taken && r.Capped? then 1 else 0)
            && (!taken ==> after == before)
  {
    assert (rs + [r])[..|rs|] == rs;
    if InSize(r.line) {
      AppendedInSize(After(maxEvents, rs).log, r.line);
    }
  }

  /** Requests that do not overlap are sections, and those append the wanted lines: every free one and the
      first `maxEvents` events that fit, in the order they were asked for. */
  lemma {:induction false} SimpleLog(maxEvents: int, rs: seq<Request>)
    ensures Fit(SectionsOf(maxEvents, rs)) && After(maxEvents, rs) == AfterAll(SectionsOf(maxEvents, rs))
    ensures After(maxEvents, rs).log.All() == AppendedLines(SectionsOf(maxEvents, rs)) == Wants(maxEvents, rs)
    ensures After(maxEvents, rs).eventCount == if 0 < maxEvents <= Attempts(rs) then maxEvents else Attempts(rs)
  {
    RequestsAreSections(maxEvents, rs);
    CountStops(maxEvents, rs);
    LockedLog(SectionsOf(maxEvents, rs));
    if rs != [] {
      SimpleLog(maxEvents, rs[..|rs| - 1]);
    }
  }
}
