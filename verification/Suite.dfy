/** The conformance suite: six tick sequences per signal, each driven through a fresh engine
    (diagnosis/suite.go). */
module Suites {
  import opened Measure
  import opened Judge
  import opened Declare
  import opened Engines
  import opened Refinements

  datatype Case = CaseLive | CaseBriefOutage | CaseLongOutage | CaseUnsupported | CasePostOutageDip | CaseBelowFloor

  const CASES: seq<Case> :=
    [CaseLive, CaseBriefOutage, CaseLongOutage, CaseUnsupported, CasePostOutageDip, CaseBelowFloor]

  datatype Scenario = Scenario(signal: string, case_: Case)

  datatype Outcome = Outcome(scenario: Scenario, availability: Availability)

  /** The caller's two snapshot builders. */
  datatype Feed<S> = Feed(readable: Instant -> S, unreadable: Instant -> S)

  /** 1970-01-01 in nanoseconds since the zero time, 62135596800 seconds before it. */
  const UNIX_EPOCH: Instant := 62_135_596_800 * SECOND

  function MinOf(m: int, least: int): int {
    if m == 0 || least < m then least else m
  }

  /** The smallest minimum among the instruments, or 0 when there are none. */
  function SmallestMin<S>(insts: seq<Instrument<S>>): int {
    if insts == [] then 0
    else MinOf(SmallestMin(insts[..|insts| - 1]), insts[|insts| - 1].measurement.reduction.min)
  }

  function MinCapableMin<S>(s: Signal<S>, env: Environment): int {
    var m := SmallestMin(CapableOf(s.instruments, env));
    var all := if m == 0 then SmallestMin(s.instruments) else m;
    if all == 0 then 1 else all
  }

  method ComputeSmallestMin<S>(insts: seq<Instrument<S>>) returns (m: int)
    ensures m == SmallestMin(insts)
  {
    m := 0;
    for i := 0 to |insts|
      invariant m == SmallestMin(insts[..i])
    {
      assert insts[..i + 1][..i] == insts[..i];
      if m == 0 || insts[i].measurement.reduction.min < m {
        m := insts[i].measurement.reduction.min;
      }
    }
    assert insts[..|insts|] == insts;
  }

  method ComputeMinCapableMin<S>(s: Signal<S>, env: Environment) returns (m: int)
    ensures m == MinCapableMin(s, env)
  {
    var capable := CapableInstruments(s.instruments, env);
    m := ComputeSmallestMin(capable);
    if m == 0 { m := ComputeSmallestMin(s.instruments); }
    if m == 0 { m := 1; }
  }

  function Bools(n: int, v: bool): seq<bool> {
    seq(if n < 0 then 0 else n, _ => v)
  }

  function EffectiveInterval(interval: int): int {
    if interval <= 0 then SECOND else interval
  }

  function DemoteTicks(demoteSpan: int, interval: int): int
    requires interval > 0
  {
    var n := demoteSpan / interval;
    if n < 1 then 1 else n
  }

  /** The readable (true) and unreadable (false) ticks of a case. */
  function Sequence(c: Case, m: int, demoteTicks: int): seq<bool> {
    match c
    case CaseLive => Bools(m, true)
    case CaseBriefOutage => Bools(m, true) + Bools(if demoteTicks - 1 > 1 then demoteTicks - 1 else 1, false)
    case CaseLongOutage => Bools(m, true) + Bools(demoteTicks + 1, false)
    case CaseUnsupported => Bools(m, true)
    case CasePostOutageDip => Bools(m, true) + Bools(demoteTicks + 1, false) + [true]
    case CaseBelowFloor => Bools(m - 1, true)
  }

  function DriveEnvironment(c: Case, env: Environment): Environment {
    if c == CaseUnsupported then {} else env
  }

  function TickAt(interval: int, k: nat): Instant {
    UNIX_EPOCH + k * interval
  }

  /** The steps `drive` feeds the engine. */
  function StepsOf<S>(f: Feed<S>, env: Environment, interval: int, ticks: seq<bool>): (steps: seq<Step<S>>)
    ensures |steps| == |ticks|
  {
    seq(|ticks|, k requires 0 <= k < |ticks| =>
      Step(if ticks[k] then f.readable(TickAt(interval, k)) else f.unreadable(TickAt(interval, k)), env, TickAt(interval, k)))
  }

  function Driven(ticks: seq<bool>): seq<bool> {
    if ticks == [] then [false] else ticks
  }

  /** The first readiness row after a run. */
  function FirstRow<S>(e: EngineState<S>, env: Environment): Availability {
    var rows := RowsOf(e.windows, e.signals, env);
    if rows == [] then NoInstrument else rows[0].availability
  }

  /** What `runScenario` reports, as a function of the engine's run. */
  function ScenarioOutcome<S>(t: Table<S>, s: Signal<S>, c: Case, env: Environment, f: Feed<S>): Availability {
    var interval := EffectiveInterval(t.interval);
    var ticks := Driven(Sequence(c, MinCapableMin(s, env), DemoteTicks(s.demoteSpan, interval)));
    var driveEnv := DriveEnvironment(c, env);
    FirstRow(RunEngine(NewState(Alone(s, t.interval)), StepsOf(f, driveEnv, interval, ticks)), driveEnv)
  }

  // ----- The driving loop on a real engine -----

  /** Judging latches leaves the readiness rows as they are. */
  lemma RowsSurviveJudging<S(!new)>(ws: WindowMap, nodes: seq<Node<S>>, env: Environment, at: Instant)
    ensures RowsOf(ws, JudgeForest(ws, nodes, env, at), env) == RowsOf(ws, nodes, env)
  {
    var judged := JudgeForest(ws, nodes, env, at);
    JudgedFlat(ws, nodes, env, at);
    JudgedFlat(ws, judged, env, at);
    var flat := Flat(nodes);
    forall i | 0 <= i < |flat| ensures RowOf(ws, JudgeOwn(ws, flat[i], env, at), env) == RowOf(ws, flat[i], env) {}
  }

  method Drive<S(!new)>(e: Engine<S>, interval: int, env: Environment, ticks: seq<bool>, f: Feed<S>)
    returns (availability: Availability)
    requires e.Valid() && |e.signals| > 0
    modifies e`signals, e`measurements, e.windows.Values
    ensures availability ==
      FirstRow(RunEngine(old(e.State()), StepsOf(f, env, interval, Driven(ticks))), env)
  {
    availability := DriveAll(e, interval, env, Driven(ticks), f);
  }

  method DriveAll<S(!new)>(e: Engine<S>, interval: int, env: Environment, ticks: seq<bool>, f: Feed<S>)
    returns (availability: Availability)
    requires e.Valid() && |e.signals| > 0 && ticks != []
    modifies e`signals, e`measurements, e.windows.Values
    ensures e.State() == RunEngine(old(e.State()), StepsOf(f, env, interval, ticks))
    ensures availability == FirstRow(e.State(), env)
  {
    var at := UNIX_EPOCH;
    availability := NoInstrument;
    ghost var start, steps := e.State(), StepsOf(f, env, interval, ticks);
    for k := 0 to |ticks|
      invariant e.Valid() && |e.signals| > 0 && at == TickAt(interval, k)
      invariant e.State() == RunEngine(start, steps[..k])
      invariant k > 0 ==> availability == FirstRow(e.State(), env)
    {
      DrivenStep(start, f, env, interval, ticks, k);
      availability := DriveTick(e, if ticks[k] then f.readable(at) else f.unreadable(at), env, at);
      at := at + interval;
    }
    assert steps[..|ticks|] == steps;
  }

  lemma DrivenStep<S>(e: EngineState<S>, f: Feed<S>, env: Environment, interval: int, ticks: seq<bool>, k: nat)
    requires k < |ticks|
    ensures var steps, at := StepsOf(f, env, interval, ticks), TickAt(interval, k);
            RunEngine(e, steps[..k + 1])
            == Tick(RunEngine(e, steps[..k]), if ticks[k] then f.readable(at) else f.unreadable(at), env, at)
  {
    RunEngineStep(e, StepsOf(f, env, interval, ticks), k);
  }

  lemma RunEngineStep<S>(e: EngineState<S>, steps: seq<Step<S>>, k: nat)
    requires k < |steps|
    ensures RunEngine(e, steps[..k + 1]) == Tick(RunEngine(e, steps[..k]), steps[k].sample, steps[k].env, steps[k].at)
  {
    assert steps[..k + 1][..k] == steps[..k];
  }

  method DriveTick<S(!new)>(e: Engine<S>, sample: S, env: Environment, at: Instant) returns (availability: Availability)
    requires e.Valid() && |e.signals| > 0
    modifies e`signals, e`measurements, e.windows.Values
    ensures e.Valid() && |e.signals| > 0
    ensures e.State() == Tick(old(e.State()), sample, env, at)
    ensures availability == FirstRow(e.State(), env)
  {
    ghost var nodes := e.signals;
    var fired, readiness := e.Observe(sample, env, at);
    RowsSurviveJudging(e.Contents(), nodes, env, at);
    PreorderSteps(nodes, Reporting(e.Contents(), env));
    availability := readiness[0].availability;
  }

  /** The position of the first signal of that name, or the length. */
  function FirstNamed<S>(signals: seq<Signal<S>>, name: string): (i: nat)
    ensures i <= |signals|
    ensures i < |signals| ==> signals[i].name == name
    ensures forall j :: 0 <= j < i ==> signals[j].name != name
  {
    if signals == [] || signals[0].name == name then 0 else 1 + FirstNamed(signals[1..], name)
  }

  /** What a call returns, unless it panics because no engine can be built. */
  datatype Attempt<T> = Ran(value: T) | Panicked

  /** Only the scenario's own signal is put into the engine, so only it must be valid. */
  predicate Runs<S>(t: Table<S>, name: string) {
    var i := FirstNamed(t.signals, name);
    i < |t.signals| && ValidTable(Alone(t.signals[i], t.interval))
  }

  function OutcomeFor<S>(t: Table<S>, sc: Scenario, env: Environment, f: Feed<S>): Outcome
    requires Runs(t, sc.signal)
  {
    Outcome(sc, ScenarioOutcome(t, t.signals[FirstNamed(t.signals, sc.signal)], sc.case_, env, f))
  }

  method FindSignal<S>(t: Table<S>, name: string) returns (i: nat)
    ensures i == FirstNamed(t.signals, name)
  {
    i := 0;
    while i < |t.signals| && t.signals[i].name != name
      invariant i <= |t.signals| && forall j :: 0 <= j < i ==> t.signals[j].name != name
    {
      i := i + 1;
    }
  }

  /** One scenario, on a fresh engine over the one signal. */
  method RunScenario<S(!new)>(t: Table<S>, sc: Scenario, env: Environment, f: Feed<S>) returns (o: Attempt<Outcome>)
    ensures o == if Runs(t, sc.signal) then Ran(OutcomeFor(t, sc, env, f)) else Panicked
  {
    var k := FindSignal(t, sc.signal);
    if k == |t.signals| { return Panicked; }
    var availability := RunAlone(t, t.signals[k], sc.case_, env, f);
    if availability.Panicked? { return Panicked; }
    o := Ran(Outcome(sc, availability.value));
  }

  method RunAlone<S(!new)>(t: Table<S>, sig: Signal<S>, c: Case, env: Environment, f: Feed<S>) returns (a: Attempt<Availability>)
    ensures a == if ValidTable(Alone(sig, t.interval)) then Ran(ScenarioOutcome(t, sig, c, env, f)) else Panicked
  {
    var check, e := Engine<S>.New(Alone(sig, t.interval));
    if check.Refused? { return Panicked; }
    var m := ComputeMinCapableMin(sig, env);
    var interval := EffectiveInterval(t.interval);
    var ticks := Sequence(c, m, DemoteTicks(sig.demoteSpan, interval));
    assert e.signals == NewState(Alone(sig, t.interval)).signals;
    assert |e.signals| > 0;
    var availability := Drive(e, interval, DriveEnvironment(c, env), ticks, f);
    a := Ran(availability);
  }

  /** The first `n` entries of row `i`, and all entries of the first `n` rows of width `w`. */
  function Row<T>(i: nat, n: nat, entry: (nat, nat) -> T): (r: seq<T>)
    ensures |r| == n
  {
    if n == 0 then [] else Row(i, n - 1, entry) + [entry(i, n - 1)]
  }

  function Grid<T>(n: nat, w: nat, entry: (nat, nat) -> T): (r: seq<T>) {
    if n == 0 then [] else Grid(n - 1, w, entry) + Row(n - 1, w, entry)
  }

  lemma {:induction false} RowEntry<T>(i: nat, n: nat, entry: (nat, nat) -> T, c: nat)
    requires c < n
    ensures Row(i, n, entry)[c] == entry(i, c)
  {
    if c < n - 1 { RowEntry(i, n - 1, entry, c); }
  }

  lemma {:induction false} GridEntry<T>(n: nat, w: nat, entry: (nat, nat) -> T, i: nat, c: nat)
    requires i < n && c < w
    ensures |Grid(n, w, entry)| == n * w
    ensures 0 <= i * w + c < n * w && Grid(n, w, entry)[i * w + c] == entry(i, c)
  {
    GridSize(n - 1, w, entry);
    GridSize(n, w, entry);
    if i < n - 1 {
      GridEntry(n - 1, w, entry, i, c);
    } else {
      RowEntry(i, w, entry, c);
    }
  }

  lemma {:induction false} GridSize<T>(n: nat, w: nat, entry: (nat, nat) -> T)
    ensures |Grid(n, w, entry)| == n * w
  {
    if n > 0 {
      GridSize(n - 1, w, entry);
      assert n * w == (n - 1) * w + w;
    } else {
      assert n * w == 0;
    }
  }

  /** The scenario at each (signal, case) of the suite, and the outcome it owes. */
  function ScenarioAt<S>(t: Table<S>, i: nat, c: nat): Scenario
    requires i < |t.signals| && c < |CASES|
  {
    Scenario(t.signals[i].name, CASES[c])
  }

  /** Whether each signal can be run on its own, and the first `n` of them all. */
  function Runnable<S>(t: Table<S>): nat -> bool {
    (i: nat) => i < |t.signals| && Runs(t, t.signals[i].name)
  }

  predicate AllUpTo(ok: nat -> bool, n: nat) {
    n > 0 ==> AllUpTo(ok, n - 1) && ok(n - 1)
  }

  lemma ValidRuns<S>(t: Table<S>, i: nat)
    requires ValidTable(t) && i < |t.signals|
    ensures FirstNamed(t.signals, t.signals[i].name) == i && Runs(t, t.signals[i].name)
  {
    assert DistinctSignals(t.signals);
    AloneIsValid(t.signals[i], t.interval);
  }

  lemma {:induction false} AllValidRun<S>(t: Table<S>, n: nat)
    requires ValidTable(t) && n <= |t.signals|
    ensures AllUpTo(Runnable(t), n)
  {
    if n > 0 {
      AllValidRun(t, n - 1);
      ValidRuns(t, n - 1);
    }
  }

  lemma {:induction false} OneFails(ok: nat -> bool, i: nat, n: nat)
    requires i <= n && !AllUpTo(ok, i)
    ensures !AllUpTo(ok, n)
  {
    if i < n { OneFails(ok, i, n - 1); }
  }

  function Owed<S>(t: Table<S>, env: Environment, f: Feed<S>): (nat, nat) -> Outcome {
    (i: nat, c: nat) =>
      if i < |t.signals| && c < |CASES| && Runs(t, t.signals[i].name) then OutcomeFor(t, ScenarioAt(t, i, c), env, f)
      else Outcome(Scenario("", CaseLive), NoInstrument)
  }

  /** `ok` says whether signal `i` can be run, and `entry` what it owes if so. */
  ghost predicate Owes<S>(t: Table<S>, i: nat, env: Environment, f: Feed<S>, ok: nat -> bool, entry: (nat, nat) -> Outcome)
    requires i < |t.signals|
  {
    && (ok(i) <==> Runs(t, t.signals[i].name))
    && (ok(i) ==> forall c: nat :: c < |CASES| ==> entry(i, c) == OutcomeFor(t, ScenarioAt(t, i, c), env, f))
  }

  lemma OwedOwes<S>(t: Table<S>, i: nat, env: Environment, f: Feed<S>)
    requires i < |t.signals|
    ensures Owes(t, i, env, f, Runnable(t), Owed(t, env, f))
  {
  }

  /** All cases of one signal. */
  method RunSignal<S(!new)>(
    t: Table<S>, i: nat, env: Environment, f: Feed<S>, ghost ok: nat -> bool, ghost entry: (nat, nat) -> Outcome)
    returns (outcomes: Attempt<seq<Outcome>>)
    requires i < |t.signals| && Owes(t, i, env, f, ok, entry)
    ensures outcomes == if ok(i) then Ran(Row(i, |CASES|, entry)) else Panicked
  {
    var row := [];
    for c := 0 to |CASES|
      invariant c > 0 ==> ok(i)
      invariant row == Row(i, c, entry)
    {
      var o := RunScenario(t, ScenarioAt(t, i, c), env, f);
      if o.Panicked? { return Panicked; }
      row := row + [o.value];
    }
    outcomes := Ran(row);
  }

  /** The suite panics exactly when some signal is refused on its own. */
  method RunSuite<S(!new)>(t: Table<S>, env: Environment, f: Feed<S>) returns (outcomes: Attempt<seq<Outcome>>)
    ensures outcomes ==
            if AllUpTo(Runnable(t), |t.signals|) then Ran(Grid(|t.signals|, |CASES|, Owed(t, env, f))) else Panicked
  {
    forall i: nat | i < |t.signals| ensures Owes(t, i, env, f, Runnable(t), Owed(t, env, f)) { OwedOwes(t, i, env, f); }
    outcomes := RunSignals(t, env, f, Runnable(t), Owed(t, env, f));
  }

  method RunSignals<S(!new)>(
    t: Table<S>, env: Environment, f: Feed<S>, ghost ok: nat -> bool, ghost entry: (nat, nat) -> Outcome)
    returns (outcomes: Attempt<seq<Outcome>>)
    requires forall i: nat :: i < |t.signals| ==> Owes(t, i, env, f, ok, entry)
    ensures outcomes == if AllUpTo(ok, |t.signals|) then Ran(Grid(|t.signals|, |CASES|, entry)) else Panicked
  {
    var all := [];
    for i := 0 to |t.signals|
      invariant AllUpTo(ok, i)
      invariant all == Grid(i, |CASES|, entry)
    {
      var row := RunSignal(t, i, env, f, ok, entry);
      if row.Panicked? {
        OneFails(ok, i + 1, |t.signals|);
        return Panicked;
      }
      all := all + row.value;
    }
    outcomes := Ran(all);
  }

  /** For a valid table, which by `AllValidRun` does not panic, the suite holds six outcomes per signal,
      in declared order, each the one its engine's run gives the scenario. */
  lemma SuiteEntry<S>(t: Table<S>, env: Environment, f: Feed<S>, outcomes: seq<Outcome>, i: nat, c: nat)
    requires ValidTable(t) && i < |t.signals| && c < |CASES|
    requires outcomes == Grid(|t.signals|, |CASES|, Owed(t, env, f))
    ensures EntryIs(outcomes, |t.signals|, |CASES|, i, c,
                    Outcome(Scenario(t.signals[i].name, CASES[c]), ScenarioOutcome(t, t.signals[i], CASES[c], env, f)))
  {
    OwedAt(t, env, f, i, c);
    GridHolds(|t.signals|, |CASES|, Owed(t, env, f), i, c);
  }

  /** `entries` has `n` rows of width `w`, and `entry` is the one at row `i` and column `c`. */
  predicate EntryIs<T(==)>(entries: seq<T>, n: nat, w: nat, i: nat, c: nat, entry: T) {
    |entries| == n * w && 0 <= i * w + c < |entries| && entries[i * w + c] == entry
  }

  lemma GridHolds<T>(n: nat, w: nat, entry: (nat, nat) -> T, i: nat, c: nat)
    requires i < n && c < w
    ensures EntryIs(Grid(n, w, entry), n, w, i, c, entry(i, c))
  {
    GridEntry(n, w, entry, i, c);
  }

  lemma OwedAt<S>(t: Table<S>, env: Environment, f: Feed<S>, i: nat, c: nat)
    requires ValidTable(t) && i < |t.signals| && c < |CASES|
    ensures Owed(t, env, f)(i, c)
            == Outcome(Scenario(t.signals[i].name, CASES[c]), ScenarioOutcome(t, t.signals[i], CASES[c], env, f))
  {
    ValidRuns(t, i);
  }
}
