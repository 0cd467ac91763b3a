/** The deduplicating and the throttling logger (logger/dedup.go, logger/throttle.go): no occurrence
    is lost and none is reported twice. Instants are nanoseconds; 0 is the unset instant. */
module LogSuppression {

  // ----- Deduplication -----

  /** A line the logger writes: an occurrence in full, a repeat at debug level, or a count. */
  datatype Line = Direct(format: string) | Quiet(format: string) | Summary(format: string, count: nat)

  datatype Dedup = Dedup(
    lastLogTime: int,
    lastSummary: int,
    key: string,
    suppressed: nat,
    announced: bool,
    resetPending: bool)

  datatype Intervals = Intervals(summary: int, reset: int)

  function Unused(): Dedup { Dedup(0, 0, "", 0, false, false) }

  function SummaryOf(d: Dedup): seq<Line> {
    if d.suppressed == 0 then [] else [Summary(d.key, d.suppressed)]
  }

  function Ended(d: Dedup): Dedup {
    d.(suppressed := 0, key := "", announced := false, resetPending := false)
  }

  predicate WentQuiet(i: Intervals, d: Dedup, now: int) { d.lastLogTime != 0 && now - d.lastLogTime >= i.reset }

  /** The cycle that was running is over: the error stayed quiet, or a reset came and the format
      has changed. */
  predicate CycleOver(i: Intervals, d: Dedup, format: string, now: int) {
    WentQuiet(i, d, now) || (d.resetPending && format != d.key)
  }

  function Logged(i: Intervals, d: Dedup, format: string, now: int): (Dedup, seq<Line>) {
    var over := CycleOver(i, d, format, now);
    var d1 := (if over then Ended(d) else d).(resetPending := false, lastLogTime := now);
    var (d2, lines) := Occurred(i, d1, format, now);
    (d2, if over then SummaryOf(d) + lines else lines)
  }

  /** An occurrence within a cycle. */
  function Occurred(i: Intervals, d: Dedup, format: string, now: int): (Dedup, seq<Line>) {
    if format != d.key then
      (d.(key := format, announced := false, suppressed := 0, lastSummary := now), SummaryOf(d) + [Direct(format)])
    else if !d.announced then
      (d.(announced := true, lastSummary := now), [Direct(format)])
    else if now - d.lastSummary >= i.summary then
      (d.(suppressed := 0, lastSummary := now), [Quiet(format), Summary(format, d.suppressed + 1)])
    else
      (d.(suppressed := d.suppressed + 1), [Quiet(format)])
  }

  class DedupLogger {
    const intervals: Intervals
    var state: Dedup

    constructor (intervals: Intervals)
      ensures this.intervals == intervals && state == Unused()
    {
      this.intervals, state := intervals, Unused();
    }

    method EmitSuppressionSummary() returns (lines: seq<Line>)
      modifies this
      ensures lines == SummaryOf(old(state)) && state == old(state).(suppressed := 0)
    {
      lines := [];
      if state.suppressed == 0 { return; }
      lines := [Summary(state.key, state.suppressed)];
      state := state.(suppressed := 0);
    }

    method EndCycle() returns (lines: seq<Line>)
      modifies this
      ensures lines == SummaryOf(old(state)) && state == Ended(old(state))
    {
      lines := EmitSuppressionSummary();
      state := state.(key := "", announced := false, resetPending := false);
    }

    method Reset()
      modifies this
      ensures state == old(state).(resetPending := true)
    {
      state := state.(resetPending := true);
    }

    method LogErrorDedup(format: string, now: int) returns (lines: seq<Line>)
      modifies this
      ensures var (after, written) := Logged(intervals, old(state), format, now); state == after && lines == written
    {
      lines := [];
      if state.lastLogTime != 0 && now - state.lastLogTime >= intervals.reset {
        lines := EndCycle();
      }
      if state.resetPending {
        if format != state.key {
          var more := EndCycle();
          lines := lines + more;
        }
        state := state.(resetPending := false);
      }
      state := state.(lastLogTime := now);
      var more := Occur(format, now);
      lines := lines + more;
    }

    method Occur(format: string, now: int) returns (lines: seq<Line>)
      modifies this
      ensures var (after, written) := Occurred(intervals, old(state), format, now); state == after && lines == written
    {
      if format != state.key {
        lines := EmitSuppressionSummary();
        lines := lines + [Direct(format)];
        state := state.(key := format, announced := false, suppressed := 0, lastSummary := now);
      } else if !state.announced {
        lines := [Direct(format)];
        state := state.(announced := true, lastSummary := now);
      } else {
        lines := [Quiet(format)];
        state := state.(suppressed := state.suppressed + 1);
        if now - state.lastSummary >= intervals.summary {
          lines := lines + [Summary(format, state.suppressed)];
          state := state.(suppressed := 0, lastSummary := now);
        }
      }
    }
  }

  datatype Call = LogError(format: string, now: int) | ResetCall

  function After(i: Intervals, calls: seq<Call>): Dedup {
    if calls == [] then Unused()
    else
      var d, last := After(i, calls[..|calls| - 1]), calls[|calls| - 1];
      if last.ResetCall? then d.(resetPending := true) else Logged(i, d, last.format, last.now).0
  }

  function Written(i: Intervals, calls: seq<Call>): seq<Line> {
    if calls == [] then []
    else
      var before, last := calls[..|calls| - 1], calls[|calls| - 1];
      if last.ResetCall? then Written(i, before)
      else Written(i, before) + Logged(i, After(i, before), last.format, last.now).1
  }

  function Occurrences(calls: seq<Call>, format: string): nat {
    if calls == [] then 0
    else
      var last := calls[|calls| - 1];
      Occurrences(calls[..|calls| - 1], format) + if last.LogError? && last.format == format then 1 else 0
  }

  /** How many occurrences of a format a line reports; a debug line reports none. */
  function Reports(line: Line, format: string): nat {
    match line
    case Direct(f) => if f == format then 1 else 0
    case Quiet(_) => 0
    case Summary(f, count) => if f == format then count else 0
  }

  function Reported(lines: seq<Line>, format: string): nat {
    if lines == [] then 0 else Reported(lines[..|lines| - 1], format) + Reports(lines[|lines| - 1], format)
  }

  /** Still to be reported. */
  function Pending(d: Dedup, format: string): nat { if d.key == format then d.suppressed else 0 }

  lemma {:induction false} ReportedConcat(a: seq<Line>, b: seq<Line>, format: string)
    ensures Reported(a + b, format) == Reported(a, format) + Reported(b, format)
  {
    if b == [] {
      assert a + b == a;
    } else {
      var ab := a + b;
      assert ab[..|ab| - 1] == a + b[..|b| - 1];
      ReportedConcat(a, b[..|b| - 1], format);
    }
  }

  lemma ReportedOne(line: Line, format: string)
    ensures Reported([line], format) == Reports(line, format)
  {
    assert [line][..0] == [];
  }

  lemma SummaryReportsPending(d: Dedup, format: string)
    ensures Reported(SummaryOf(d), format) == Pending(d, format)
  {
    ReportedOne(Summary(d.key, d.suppressed), format);
  }

  lemma OccurrenceConserves(i: Intervals, d: Dedup, format: string, now: int, f: string)
    ensures var (d', lines) := Occurred(i, d, format, now);
            Reported(lines, f) + Pending(d', f) == Pending(d, f) + if f == format then 1 else 0
  {
    SummaryReportsPending(d, f);
    ReportedOne(Direct(format), f);
    ReportedOne(Quiet(format), f);
    ReportedOne(Summary(format, d.suppressed + 1), f);
    ReportedConcat(SummaryOf(d), [Direct(format)], f);
    assert [Quiet(format), Summary(format, d.suppressed + 1)] == [Quiet(format)] + [Summary(format, d.suppressed + 1)];
    ReportedConcat([Quiet(format)], [Summary(format, d.suppressed + 1)], f);
  }

  lemma CallConserves(i: Intervals, d: Dedup, format: string, now: int, f: string)
    ensures var (d', lines) := Logged(i, d, format, now);
            Reported(lines, f) + Pending(d', f) == Pending(d, f) + if f == format then 1 else 0
  {
    var over := CycleOver(i, d, format, now);
    var d1 := (if over then Ended(d) else d).(resetPending := false, lastLogTime := now);
    OccurrenceConserves(i, d1, format, now, f);
    SummaryReportsPending(d, f);
    ReportedConcat(SummaryOf(d), Occurred(i, d1, format, now).1, f);
  }

  /** For every sequence of calls, resets and clocks, and for every format: the occurrences are those
      written in full, those counted in summaries, and those still pending. */
  lemma {:induction false} DedupConserves(i: Intervals, calls: seq<Call>, format: string)
    ensures Occurrences(calls, format) == Reported(Written(i, calls), format) + Pending(After(i, calls), format)
  {
    if calls != [] {
      var before, last := calls[..|calls| - 1], calls[|calls| - 1];
      DedupConserves(i, before, format);
      if last.LogError? {
        var d := After(i, before);
        CallConserves(i, d, last.format, last.now, format);
        ReportedConcat(Written(i, before), Logged(i, d, last.format, last.now).1, format);
      }
    }
  }

  // ----- Throttling -----

  datatype Entry = Entry(lastLogged: int, suppressed: nat)

  type Entries = map<string, Entry>

  /** A boundary line reports its own occurrence and those suppressed before it; an announcement
      accompanies a suppressed one and reports none. */
  datatype Throttled = Boundary(key: string, folded: nat) | Announce(key: string)

  function EntryOf(m: Entries, key: string): Entry { if key in m then m[key] else Entry(0, 0) }

  predicate AtBoundary(interval: int, e: Entry, now: int) { e.lastLogged == 0 || now - e.lastLogged >= interval }

  function Throttle(interval: int, m: Entries, key: string, now: int): (Entries, seq<Throttled>) {
    var e := EntryOf(m, key);
    if AtBoundary(interval, e, now) then (m[key := Entry(now, 0)], [Boundary(key, e.suppressed)])
    else (m[key := e.(suppressed := e.suppressed + 1)], if e.suppressed == 0 then [Announce(key)] else [])
  }

  class ThrottledLogger {
    const interval: int
    var entries: Entries

    constructor (interval: int)
      ensures this.interval == interval && entries == map[]
    {
      this.interval, entries := interval, map[];
    }

    method Log(key: string, now: int) returns (lines: seq<Throttled>)
      modifies this
      ensures var (after, written) := Throttle(interval, old(entries), key, now); entries == after && lines == written
    {
      if key !in entries { entries := entries[key := Entry(0, 0)]; }
      var entry := entries[key];
      if entry.lastLogged == 0 || now - entry.lastLogged >= interval {
        lines := [Boundary(key, entry.suppressed)];
        entries := entries[key := Entry(now, 0)];
        return;
      }
      entry := entry.(suppressed := entry.suppressed + 1);
      entries := entries[key := entry];
      lines := if entry.suppressed == 1 then [Announce(key)] else [];
    }
  }

  datatype Hit = Hit(key: string, now: int)

  function EntriesAfter(interval: int, hits: seq<Hit>): Entries {
    if hits == [] then map[]
    else
      var last := hits[|hits| - 1];
      Throttle(interval, EntriesAfter(interval, hits[..|hits| - 1]), last.key, last.now).0
  }

  function ThrottledLines(interval: int, hits: seq<Hit>): seq<Throttled> {
    if hits == [] then []
    else
      var before, last := hits[..|hits| - 1], hits[|hits| - 1];
      ThrottledLines(interval, before) + Throttle(interval, EntriesAfter(interval, before), last.key, last.now).1
  }

  function HitsOf(hits: seq<Hit>, key: string): nat {
    if hits == [] then 0
    else HitsOf(hits[..|hits| - 1], key) + if hits[|hits| - 1].key == key then 1 else 0
  }

  function Folded(lines: seq<Throttled>, key: string): nat {
    if lines == [] then 0
    else
      var last := lines[|lines| - 1];
      Folded(lines[..|lines| - 1], key) + if last.Boundary? && last.key == key then 1 + last.folded else 0
  }

  lemma FoldedSnoc(lines: seq<Throttled>, more: seq<Throttled>, key: string)
    requires |more| <= 1
    ensures Folded(lines + more, key) == Folded(lines, key) + Folded(more, key)
  {
    if more == [] {
      assert lines + more == lines;
    } else {
      assert (lines + more)[..|lines|] == lines && more[..0] == [];
    }
  }

  lemma ThrottleConservesOne(interval: int, m: Entries, key: string, now: int, k: string)
    ensures var (m', lines) := Throttle(interval, m, key, now);
            |lines| <= 1
            && Folded(lines, k) + EntryOf(m', k).suppressed == EntryOf(m, k).suppressed + if k == key then 1 else 0
  {
    var lines := Throttle(interval, m, key, now).1;
    if lines != [] { assert lines[..0] == []; }
  }

  /** For every sequence of calls and clocks and for every key: the calls are the boundary lines, the
      counts folded into them, and those still pending. */
  lemma {:induction false} ThrottleConserves(interval: int, hits: seq<Hit>, key: string)
    ensures HitsOf(hits, key)
            == Folded(ThrottledLines(interval, hits), key) + EntryOf(EntriesAfter(interval, hits), key).suppressed
  {
    if hits != [] {
      var before, last := hits[..|hits| - 1], hits[|hits| - 1];
      var m := EntriesAfter(interval, before);
      ThrottleConserves(interval, before, key);
      ThrottleConservesOne(interval, m, last.key, last.now, key);
      FoldedSnoc(ThrottledLines(interval, before), Throttle(interval, m, last.key, last.now).1, key);
    }
  }
}
