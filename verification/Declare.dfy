/** The declarations a caller writes, and the one place a malformed table is refused
    (diagnosis/declare.go, and the validation in diagnosis/engine.go). */
module Declare {
  import opened Measure
  import opened Windows
  import opened Judge

  /** A function from the caller's snapshot to a reading, or Go's nil. */
  datatype Extractor<!S> = Nil | Extract(f: S -> Reading) {
    /** A nil denominator reads as an absence; a nil `extract` never passes validation. */
    function Read(s: S): Reading {
      if Nil? then Unknown else f(s)
    }
  }

  datatype Measurement<!S> = Measurement(
    name: string,
    extract: Extractor<S>,
    against: Extractor<S>,
    needs: seq<string>,
    reduction: Reduction,
    span: int,
    boolean: bool,
    counter: bool)

  datatype Instrument<!S> = Instrument(measurement: Measurement<S>, marks: Marks) {
    function Name(): string { measurement.name }

    function WindowConfig(demoteSpan: int): Config {
      Config(measurement.span, demoteSpan, measurement.reduction, measurement.counter)
    }
  }

  datatype Signal<!S> = Signal(
    name: string,
    instruments: seq<Instrument<S>>,
    refinements: seq<Signal<S>>,
    demoteSpan: int,
    tier: int,
    attribution: int,
    releaseOnAbsent: bool)

  datatype Table<!S> = Table(signals: seq<Signal<S>>, measurements: seq<Measurement<S>>, interval: int)

  /** The capabilities present on a box. */
  type Environment = set<string>

  predicate Capable<S>(inst: Instrument<S>, env: Environment) {
    forall need :: need in inst.measurement.needs ==> need in env
  }

  /** The instruments the environment satisfies, in declared order. */
  function CapableOf<S>(instruments: seq<Instrument<S>>, env: Environment): seq<Instrument<S>> {
    if instruments == [] then []
    else (if Capable(instruments[0], env) then [instruments[0]] else []) + CapableOf(instruments[1..], env)
  }

  method Satisfied(needs: seq<string>, env: Environment) returns (satisfied: bool)
    ensures satisfied <==> forall need :: need in needs ==> need in env
  {
    for k := 0 to |needs|
      invariant forall j :: 0 <= j < k ==> needs[j] in env
    {
      if needs[k] !in env { return false; }
    }
    return true;
  }

  method CapableInstruments<S>(instruments: seq<Instrument<S>>, env: Environment) returns (capable: seq<Instrument<S>>)
    ensures capable == CapableOf(instruments, env)
  {
    capable := [];
    for i := 0 to |instruments|
      invariant capable + CapableOf(instruments[i..], env) == CapableOf(instruments, env)
    {
      var inst := instruments[i];
      var satisfied := Satisfied(inst.measurement.needs, env);
      assert instruments[i..][1..] == instruments[i + 1..];
      if satisfied {
        capable := capable + [inst];
      }
    }
  }

  // ----- Validation -----

  const SEPARATOR := '/'

  function ChildPath(parent: string, name: string): string {
    parent + [SEPARATOR] + name
  }

  /** Enough readings for the reduction fit the span when ticking every `interval`. */
  predicate MinimumFits<S>(m: Measurement<S>, interval: int) {
    interval > 0 ==> m.span / interval + 1 >= m.reduction.min
  }

  /** The rules every measurement is held to. */
  predicate ValidMeasurement<S>(m: Measurement<S>, interval: int) {
    && m.extract.Extract?
    && m.span > 0
    && m.reduction.min >= 1
    && !m.reduction.fold.NoFold?
    && MinimumFits(m, interval)
  }

  predicate ValidInstrument<S>(inst: Instrument<S>, interval: int) {
    var m := inst.measurement;
    && ValidMeasurement(m, interval)
    && !(m.reduction.ordered && m.boolean)
    && (m.reduction.divides ==> m.against.Extract?)
    && ValidMarks(inst.marks)
  }

  predicate ValidSignal<S>(s: Signal<S>, interval: int) {
    && SEPARATOR !in s.name
    && s.instruments != []
    && s.demoteSpan > 0
    && (interval > 0 ==> s.demoteSpan >= interval)
    && (forall i :: 0 <= i < |s.instruments| ==> ValidInstrument(s.instruments[i], interval))
    && DistinctInstruments(s.instruments)
    && DistinctSignals(s.refinements)
    && (forall i :: 0 <= i < |s.refinements| ==> ValidSignal(s.refinements[i], interval))
  }

  predicate DistinctInstruments<S>(instruments: seq<Instrument<S>>) {
    forall i, j :: 0 <= i < j < |instruments| ==> instruments[i].Name() != instruments[j].Name()
  }

  predicate DistinctSignals<S>(signals: seq<Signal<S>>) {
    forall i, j :: 0 <= i < j < |signals| ==> signals[i].name != signals[j].name
  }

  predicate ValidTableMeasurement<S>(m: Measurement<S>, interval: int) {
    && m.against.Nil?
    && m.needs == []
    && !m.boolean
    && !m.counter
    && ValidMeasurement(m, interval)
    && !m.reduction.divides
  }

  /** The tables `NewEngine` accepts. */
  predicate ValidTable<S>(t: Table<S>) {
    && DistinctSignals(t.signals)
    && (forall i :: 0 <= i < |t.signals| ==> ValidSignal(t.signals[i], t.interval))
    && (forall i, j :: 0 <= i < j < |t.measurements| ==> t.measurements[i].name != t.measurements[j].name)
    && (forall i :: 0 <= i < |t.measurements| ==> ValidTableMeasurement(t.measurements[i], t.interval))
  }

  datatype Refusal = Refusal(row: string, rule: string)

  datatype Check = Sound | Refused(refusal: Refusal)

  /** The first rule a measurement breaks. */
  method CheckMeasurement<S>(row: string, m: Measurement<S>, interval: int) returns (c: Check)
    ensures c.Sound? <==> ValidMeasurement(m, interval)
  {
    if m.extract.Nil? { return Refused(Refusal(row, "nil extract")); }
    if m.span <= 0 { return Refused(Refusal(row, "span not positive")); }
    if m.reduction.min < 1 { return Refused(Refusal(row, "minimum below one")); }
    if m.reduction.fold.NoFold? { return Refused(Refusal(row, "no fold")); }
    if interval > 0 && m.span / interval + 1 < m.reduction.min {
      return Refused(Refusal(row, "minimum exceeds span"));
    }
    return Sound;
  }

  /** The rules an instrument's own fields obey, once its name is known to be new. */
  method CheckMarks<S>(path: string, inst: Instrument<S>) returns (c: Check)
    ensures c.Sound? <==>
            && !(inst.measurement.reduction.ordered && inst.measurement.boolean)
            && !(inst.measurement.reduction.divides && inst.measurement.against.Nil?)
            && ValidMarks(inst.marks)
  {
    var m := inst.measurement;
    if m.reduction.ordered && m.boolean { return Refused(Refusal(path, "percentile of a boolean")); }
    if m.reduction.divides && m.against.Nil? { return Refused(Refusal(path, "no against extractor")); }
    if Worse(inst.marks.clear.at, inst.marks) >= Worse(inst.marks.fire.at, inst.marks) {
      return Refused(Refusal(path, "clear mark not on the holding side"));
    }
    if Worse(inst.marks.worst, inst.marks) <= Worse(inst.marks.fire.at, inst.marks) {
      return Refused(Refusal(path, "worst not worse than fire"));
    }
    return Sound;
  }

  /** The first rule a signal or anything under it breaks, walking in declared order. */
  method CheckSignal<S>(path: string, s: Signal<S>, interval: int) returns (c: Check)
    ensures c.Sound? <==> ValidSignal(s, interval)
    decreases s
  {
    if SEPARATOR in s.name { return Refused(Refusal(path, "name holds separator")); }
    if |s.instruments| == 0 { return Refused(Refusal(path, "no instruments")); }
    if s.demoteSpan <= 0 { return Refused(Refusal(path, "demote span not positive")); }
    if interval > 0 && s.demoteSpan < interval { return Refused(Refusal(path, "demote span below interval")); }

    var seen: set<string> := {};
    for i := 0 to |s.instruments|
      invariant seen == set k | 0 <= k < i :: s.instruments[k].Name()
      invariant DistinctInstruments(s.instruments[..i])
      invariant forall k :: 0 <= k < i ==> ValidInstrument(s.instruments[k], interval)
    {
      var inst := s.instruments[i];
      var m := inst.measurement;
      c := CheckMeasurement(path, m, interval);
      if c.Refused? { return; }
      if inst.Name() in seen { return Refused(Refusal(path, "duplicate instrument")); }
      seen := seen + {inst.Name()};
      c := CheckMarks(path, inst);
      if c.Refused? { return; }
    }
    assert s.instruments[..|s.instruments|] == s.instruments;

    seen := {};
    for i := 0 to |s.refinements|
      invariant seen == set k | 0 <= k < i :: s.refinements[k].name
      invariant DistinctSignals(s.refinements[..i])
      invariant forall k :: 0 <= k < i ==> ValidSignal(s.refinements[k], interval)
    {
      var r := s.refinements[i];
      if r.name in seen { return Refused(Refusal(path, "duplicate refinement")); }
      seen := seen + {r.name};
      c := CheckSignal(ChildPath(path, r.name), r, interval);
      if c.Refused? { return; }
    }
    assert s.refinements[..|s.refinements|] == s.refinements;
    return Sound;
  }

  method CheckTable<S>(t: Table<S>) returns (c: Check)
    ensures c.Sound? <==> ValidTable(t)
  {
    var seen: set<string> := {};
    for i := 0 to |t.signals|
      invariant seen == set k | 0 <= k < i :: t.signals[k].name
      invariant DistinctSignals(t.signals[..i])
      invariant forall k :: 0 <= k < i ==> ValidSignal(t.signals[k], t.interval)
    {
      var s := t.signals[i];
      if s.name in seen { return Refused(Refusal(s.name, "duplicate signal")); }
      seen := seen + {s.name};
      c := CheckSignal(s.name, s, t.interval);
      if c.Refused? { return; }
    }
    assert t.signals[..|t.signals|] == t.signals;

    seen := {};
    for i := 0 to |t.measurements|
      invariant seen == set k | 0 <= k < i :: t.measurements[k].name
      invariant forall a, b :: 0 <= a < b < i ==> t.measurements[a].name != t.measurements[b].name
      invariant forall k :: 0 <= k < i ==> ValidTableMeasurement(t.measurements[k], t.interval)
    {
      var m := t.measurements[i];
      if m.name in seen { return Refused(Refusal(m.name, "duplicate measurement")); }
      seen := seen + {m.name};
      if m.against.Extract? { return Refused(Refusal(m.name, "against outside a signal")); }
      if |m.needs| > 0 { return Refused(Refusal(m.name, "requires outside a signal")); }
      if m.boolean { return Refused(Refusal(m.name, "boolean outside a signal")); }
      if m.counter { return Refused(Refusal(m.name, "counter outside a signal")); }
      c := CheckMeasurement(m.name, m, t.interval);
      if c.Refused? { return; }
      if m.reduction.divides { return Refused(Refusal(m.name, "divides without a denominator")); }
    }
    return Sound;
  }

  // ----- Paths -----

  /** Series path `s` belongs to the signal at path `q` or to something under it. */
  predicate Under(q: string, s: string) {
    s == q || q + [SEPARATOR] <= s
  }

  /** The part of `s` before its first separator. */
  function FirstSegment(s: string): string {
    if s == [] || s[0] == SEPARATOR then [] else [s[0]] + FirstSegment(s[1..])
  }

  lemma {:induction false} FirstSegmentOf(name: string, rest: string)
    requires SEPARATOR !in name && (rest == [] || rest[0] == SEPARATOR)
    ensures FirstSegment(name + rest) == name
  {
    if name == [] {
      assert name + rest == rest;
    } else {
      assert (name + rest)[1..] == name[1..] + rest;
      FirstSegmentOf(name[1..], rest);
    }
  }

  /** Two siblings, named without a separator, can never own one path between them. */
  lemma SiblingsOwnDisjointPaths(base: string, n1: string, n2: string, s: string)
    requires SEPARATOR !in n1 && SEPARATOR !in n2
    requires Under(base + n1, s) && Under(base + n2, s)
    ensures n1 == n2
  {
    var r := s[|base|..];
    assert s[..|base|] == base;
    OwnSegment(base, n1, s);
    OwnSegment(base, n2, s);
  }

  lemma OwnSegment(base: string, name: string, s: string)
    requires SEPARATOR !in name && Under(base + name, s)
    ensures |base| <= |s| && FirstSegment(s[|base|..]) == name
  {
    var k := |base| + |name|;
    assert s[..k] == base + name;
    assert s[|base|..] == name + s[k..];
    if s != base + name { assert s[k] == (base + name + [SEPARATOR])[k]; }
    FirstSegmentOf(name, s[k..]);
  }

  /** A child's paths are its parent's paths, and never the parent's own path. */
  lemma ChildIsUnderParent(parent: string, name: string, s: string)
    requires Under(ChildPath(parent, name), s)
    ensures Under(parent, s) && s != parent
  {
    var q := ChildPath(parent, name);
    assert q[..|parent| + 1] == parent + [SEPARATOR];
    assert s[..|q|] == q;
    assert s[..|parent| + 1] == parent + [SEPARATOR];
  }
}
