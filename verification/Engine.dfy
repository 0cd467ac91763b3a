/** The engine: one window per (path, instrument) pair and one latch per signal at every depth
    (diagnosis/engine.go). The functions give one tick on values; class `Engine` performs it on
    the mutable windows and is proved to match. */
module Engines {
  import opened Measure
  import opened Windows
  import opened Judge
  import opened Sorting
  import opened Declare

  datatype Availability = NoInstrument | AllAbsent | NoneReady | Ready

  datatype Readiness = Readiness(signal: string, availability: Availability)

  datatype Key = Key(path: string, instrument: string)

  /** A node of the signal tree: what of a signal judging needs, its one latch, and its refinements. */
  datatype Node<!S> = Node(
    path: string,
    instruments: seq<Instrument<S>>,
    refinements: seq<Node<S>>,
    latch: LatchState,
    demoteSpan: int,
    releaseOnAbsent: bool)

  datatype MeasurementState<!S> = MeasurementState(measurement: Measurement<S>, window: Window)

  type WindowMap = map<Key, Window>

  datatype EngineState<!S> = EngineState(
    windows: WindowMap,
    signals: seq<Node<S>>,
    measurements: seq<MeasurementState<S>>)

  // ----- Building -----

  /** The nodes for `signals[index..]`, whose paths all begin with `base`. */
  function BuildForest<S>(base: string, signals: seq<Signal<S>>, index: nat): seq<Node<S>>
    requires index <= |signals|
    decreases signals, |signals| - index
  {
    if index == |signals| then []
    else [BuildNode(base + signals[index].name, signals[index], index)] + BuildForest(base, signals, index + 1)
  }

  function BuildNode<S>(path: string, s: Signal<S>, index: nat): Node<S>
    decreases s
  {
    Node(
      path,
      s.instruments,
      BuildForest(path + [SEPARATOR], s.refinements, 0),
      NewLatch(Identity(s.name, s.tier, s.attribution, index)),
      s.demoteSpan,
      s.releaseOnAbsent)
  }

  function OpenWindows<S>(ws: WindowMap, path: string, instruments: seq<Instrument<S>>, demoteSpan: int): WindowMap
    decreases instruments
  {
    if instruments == [] then ws
    else
      var inst := instruments[0];
      var opened_ := ws[Key(path, inst.Name()) := Empty(inst.WindowConfig(demoteSpan))];
      OpenWindows(opened_, path, instruments[1..], demoteSpan)
  }

  function OpenForest<S>(ws: WindowMap, nodes: seq<Node<S>>): WindowMap
    decreases nodes
  {
    if nodes == [] then ws
    else
      var n := nodes[0];
      var own := OpenWindows(ws, n.path, n.instruments, n.demoteSpan);
      OpenForest(OpenForest(own, n.refinements), nodes[1..])
  }

  function NewMeasurement<S>(m: Measurement<S>): MeasurementState<S> {
    MeasurementState(m, Empty(Config(m.span, m.span, m.reduction, false)))
  }

  function NewState<S>(t: Table<S>): EngineState<S> {
    var nodes := BuildForest("", t.signals, 0);
    EngineState(
      OpenForest(map[], nodes),
      nodes,
      seq(|t.measurements|, i requires 0 <= i < |t.measurements| => NewMeasurement(t.measurements[i])))
  }

  // ----- One tick on values -----

  function ObserveOwn<S>(ws: WindowMap, path: string, instruments: seq<Instrument<S>>, sample: S, at: Instant): WindowMap
    decreases instruments
  {
    if instruments == [] then ws
    else
      var inst, key := instruments[0], Key(path, instruments[0].Name());
      var m := inst.measurement;
      var next :=
        if key in ws then ws[key := Windows.Observe(ws[key], m.extract.Read(sample), m.against.Read(sample), at)]
        else ws;
      ObserveOwn(next, path, instruments[1..], sample, at)
  }

  function ObserveForest<S>(ws: WindowMap, nodes: seq<Node<S>>, sample: S, at: Instant): WindowMap
    decreases nodes
  {
    if nodes == [] then ws
    else
      var n := nodes[0];
      var own := ObserveOwn(ws, n.path, n.instruments, sample, at);
      ObserveForest(ObserveForest(own, n.refinements, sample, at), nodes[1..], sample, at)
  }

  /** What a signal can say: the chosen instrument's answer, or only an availability. */
  datatype Resolution =
    | Answer(instrument: string, marks: Marks, reduced: Reduced, coverage: Coverage)
    | NoAnswer(why: Availability)
  {
    function Availability(): Availability {
      if Answer? then Ready else why
    }
  }

  /** The state of the window under (path, inst), if there is one. */
  predicate HasState<S>(ws: WindowMap, path: string, inst: Instrument<S>, st: State) {
    var key := Key(path, inst.Name());
    key in ws && Reduce(ws[key]).state == st
  }

  /** The position of the first instrument whose window is trustworthy, or the length. */
  function FirstReady<S>(ws: WindowMap, path: string, capable: seq<Instrument<S>>): (i: nat)
    ensures i <= |capable|
    ensures i < |capable| ==> HasState(ws, path, capable[i], StateValue)
    ensures forall k :: 0 <= k < i ==> !HasState(ws, path, capable[k], StateValue)
  {
    if capable == [] || HasState(ws, path, capable[0], StateValue) then 0
    else 1 + FirstReady(ws, path, capable[1..])
  }

  predicate AnyHas<S>(ws: WindowMap, path: string, capable: seq<Instrument<S>>, st: State) {
    exists i :: 0 <= i < |capable| && HasState(ws, path, capable[i], st)
  }

  /** The first trustworthy window's answer; otherwise the maximum state over the windows there are. */
  function Resolve<S>(ws: WindowMap, path: string, capable: seq<Instrument<S>>): Resolution {
    var i := FirstReady(ws, path, capable);
    if i < |capable| then
      var w := ws[Key(path, capable[i].Name())];
      Answer(capable[i].Name(), capable[i].marks, Reduce(w), CoverageOf(w))
    else if AnyHas(ws, path, capable, StateUntrusted) then NoAnswer(NoneReady)
    else if AnyHas(ws, path, capable, StateAbsent) then NoAnswer(AllAbsent)
    else NoAnswer(NoInstrument)
  }

  function JudgeLatch(l: LatchState, r: Resolution, demoteSpan: int, releaseOnAbsent: bool, at: Instant): LatchState {
    match r
    case Answer(instrument, marks, reduced, coverage) => UpdateLatch(l, instrument, reduced, coverage, marks, at)
    case NoAnswer(why) =>
      if why == AllAbsent && releaseOnAbsent then ResetLatch(l)
      else ReleaseLatchAfter(l, demoteSpan, at)
  }

  function ResolveNode<S>(ws: WindowMap, n: Node<S>, env: Environment): Resolution {
    Resolve(ws, n.path, CapableOf(n.instruments, env))
  }

  /** A node with its own latch driven and its refinements left alone. */
  function JudgeOwn<S>(ws: WindowMap, n: Node<S>, env: Environment, at: Instant): Node<S> {
    n.(latch := JudgeLatch(n.latch, ResolveNode(ws, n, env), n.demoteSpan, n.releaseOnAbsent, at))
  }

  /** Every node of a forest replaced by its image, the shape kept. */
  function MapForest<S>(nodes: seq<Node<S>>, f: Node<S> -> Node<S>): seq<Node<S>> {
    if nodes == [] then [] else [MapNode(nodes[0], f)] + MapForest(nodes[1..], f)
  }

  function MapNode<S>(n: Node<S>, f: Node<S> -> Node<S>): Node<S> {
    f(n).(refinements := MapForest(n.refinements, f))
  }

  /** One entry per node of a forest, each immediately before those of the subtree under it. */
  function Preorder<S, R>(nodes: seq<Node<S>>, g: Node<S> -> R): seq<R> {
    if nodes == [] then [] else PreorderNode(nodes[0], g) + Preorder(nodes[1..], g)
  }

  function PreorderNode<S, R>(n: Node<S>, g: Node<S> -> R): seq<R> {
    [g(n)] + Preorder(n.refinements, g)
  }

  function Judging<S>(ws: WindowMap, env: Environment, at: Instant): Node<S> -> Node<S> {
    n => JudgeOwn(ws, n, env, at)
  }

  function JudgeForest<S>(ws: WindowMap, nodes: seq<Node<S>>, env: Environment, at: Instant): seq<Node<S>> {
    MapForest(nodes, Judging(ws, env, at))
  }

  function RowOf<S>(ws: WindowMap, n: Node<S>, env: Environment): Readiness {
    Readiness(n.path, ResolveNode(ws, n, env).Availability())
  }

  function Reporting<S>(ws: WindowMap, env: Environment): Node<S> -> Readiness {
    n => RowOf(ws, n, env)
  }

  function RowsOf<S>(ws: WindowMap, nodes: seq<Node<S>>, env: Environment): seq<Readiness> {
    Preorder(nodes, Reporting(ws, env))
  }

  lemma {:induction false} NextNode<S, R>(nodes: seq<Node<S>>, i: nat, f: Node<S> -> Node<S>, g: Node<S> -> R)
    requires i < |nodes|
    ensures MapForest(nodes[..i + 1], f) == MapForest(nodes[..i], f) + [MapNode(nodes[i], f)]
    ensures Preorder(nodes[..i + 1], g) == Preorder(nodes[..i], g) + PreorderNode(nodes[i], g)
  {
    if i == 0 {
      assert nodes[..1] == [nodes[0]] && [nodes[0]][1..] == [] && nodes[..0] == [];
    } else {
      NextNode(nodes[1..], i - 1, f, g);
      assert nodes[..i + 1][1..] == nodes[1..][..i] && nodes[..i][1..] == nodes[1..][..i - 1];
    }
  }

  /** The verdicts of the fired nodes among siblings, in declared order; each carries its fired
      refinements in tier-then-index order. */
  function FiredForest<S>(nodes: seq<Node<S>>): seq<Fired> {
    if nodes == [] then []
    else
      var n := nodes[0];
      (if n.latch.fired then [FiredNode(n)] else []) + FiredForest(nodes[1..])
  }

  function FiredNode<S>(n: Node<S>): Fired {
    Verdict(n.latch).(refinements := SortBy(FiredForest(n.refinements), Precedes))
  }

  function ObserveMeasurement<S>(ms: MeasurementState<S>, sample: S, at: Instant): MeasurementState<S> {
    ms.(window := Windows.Observe(ms.window, ms.measurement.extract.Read(sample), Unknown, at))
  }

  function ObserveMeasurements<S>(ms: seq<MeasurementState<S>>, sample: S, at: Instant): seq<MeasurementState<S>> {
    seq(|ms|, i requires 0 <= i < |ms| => ObserveMeasurement(ms[i], sample, at))
  }

  /** One whole tick. */
  function Tick<S>(e: EngineState<S>, sample: S, env: Environment, at: Instant): EngineState<S> {
    var ws := ObserveForest(e.windows, e.signals, sample, at);
    EngineState(
      ws,
      JudgeForest(ws, e.signals, env, at),
      ObserveMeasurements(e.measurements, sample, at))
  }

  // ----- The mutable engine -----

  class Engine<S(!new)> {
    var windows: map<Key, SlidingWindow>
    var signals: seq<Node<S>>
    var measurements: seq<MeasurementState<S>>

    /** No two keys share a window object. */
    ghost predicate Valid()
      reads this
    {
      forall k1, k2 :: k1 in windows && k2 in windows && windows[k1] == windows[k2] ==> k1 == k2
    }

    ghost function Contents(): WindowMap
      reads this, windows.Values
    {
      map k | k in windows :: windows[k].Contents()
    }

    ghost function State(): EngineState<S>
      reads this, windows.Values
    {
      EngineState(Contents(), signals, measurements)
    }

    /** An engine over no table yet; `Load` fills it. */
    constructor ()
      ensures Valid() && windows == map[] && State() == EngineState(map[], [], [])
    {
      windows, signals, measurements := map[], [], [];
    }

    method OpenWindow(path: string, inst: Instrument<S>, demoteSpan: int)
      requires Valid()
      modifies this`windows
      ensures Valid() && fresh(windows.Values - old(windows.Values))
      ensures Contents() == old(Contents())[Key(path, inst.Name()) := Empty(inst.WindowConfig(demoteSpan))]
    {
      var w := new SlidingWindow(inst.WindowConfig(demoteSpan));
      windows := windows[Key(path, inst.Name()) := w];
    }

    /** Opens every window of a signal and of all that hangs under it. */
    method OpenTree(n: Node<S>)
      requires Valid()
      modifies this`windows
      ensures Valid() && fresh(windows.Values - old(windows.Values))
      ensures Contents() == OpenForest(OpenWindows(old(Contents()), n.path, n.instruments, n.demoteSpan), n.refinements)
      decreases n
    {
      for i := 0 to |n.instruments|
        invariant Valid() && fresh(windows.Values - old(windows.Values))
        invariant OpenWindows(Contents(), n.path, n.instruments[i..], n.demoteSpan)
               == OpenWindows(old(Contents()), n.path, n.instruments, n.demoteSpan)
      {
        assert n.instruments[i..][1..] == n.instruments[i + 1..];
        OpenWindow(n.path, n.instruments[i], n.demoteSpan);
      }
      OpenTrees(n.refinements);
    }

    method OpenTrees(nodes: seq<Node<S>>)
      requires Valid()
      modifies this`windows
      ensures Valid() && fresh(windows.Values - old(windows.Values))
      ensures Contents() == OpenForest(old(Contents()), nodes)
      decreases nodes
    {
      for i := 0 to |nodes|
        invariant Valid() && fresh(windows.Values - old(windows.Values))
        invariant OpenForest(Contents(), nodes[i..]) == OpenForest(old(Contents()), nodes)
      {
        assert nodes[i..][1..] == nodes[i + 1..];
        OpenTree(nodes[i]);
      }
    }

    /** `NewEngine`: refuses a malformed table and otherwise builds every window and latch. */
    static method New(t: Table<S>) returns (check: Check, e: Engine<S>)
      ensures check.Sound? <==> ValidTable(t)
      ensures check.Sound? ==> fresh(e) && fresh(e.windows.Values) && e.Valid() && e.State() == NewState(t)
    {
      e := new Engine<S>();
      check := CheckTable(t);
      if check.Refused? { return; }
      e.Load(t);
    }

    method Load(t: Table<S>)
      requires Valid() && windows == map[]
      modifies this
      ensures Valid() && fresh(windows.Values) && State() == NewState(t)
    {
      var nodes := BuildForest("", t.signals, 0);
      OpenTrees(nodes);
      signals := nodes;
      measurements :=
        seq(|t.measurements|, i requires 0 <= i < |t.measurements| => NewMeasurement(t.measurements[i]));
    }

    method ObserveKey(key: Key, value: Reading, against: Reading, at: Instant)
      requires Valid()
      modifies windows.Values
      ensures Contents() ==
        if key in windows then old(Contents())[key := Windows.Observe(old(Contents())[key], value, against, at)]
        else old(Contents())
    {
      if key in windows {
        windows[key].Tick(value, against, at);
      }
    }

    method ObserveTree(n: Node<S>, sample: S, at: Instant)
      requires Valid()
      modifies windows.Values
      ensures Contents() ==
        ObserveForest(ObserveOwn(old(Contents()), n.path, n.instruments, sample, at), n.refinements, sample, at)
      decreases n
    {
      for i := 0 to |n.instruments|
        invariant ObserveOwn(Contents(), n.path, n.instruments[i..], sample, at)
               == ObserveOwn(old(Contents()), n.path, n.instruments, sample, at)
      {
        assert n.instruments[i..][1..] == n.instruments[i + 1..];
        var m := n.instruments[i].measurement;
        ObserveKey(Key(n.path, n.instruments[i].Name()), m.extract.Read(sample), m.against.Read(sample), at);
      }
      ObserveTrees(n.refinements, sample, at);
    }

    method ObserveTrees(nodes: seq<Node<S>>, sample: S, at: Instant)
      requires Valid()
      modifies windows.Values
      ensures Contents() == ObserveForest(old(Contents()), nodes, sample, at)
      decreases nodes
    {
      for i := 0 to |nodes|
        invariant ObserveForest(Contents(), nodes[i..], sample, at) == ObserveForest(old(Contents()), nodes, sample, at)
      {
        assert nodes[i..][1..] == nodes[i + 1..];
        ObserveTree(nodes[i], sample, at);
      }
    }

    /** The readiness gate, as the loop over the capable instruments. */
    method ResolvePath(path: string, capable: seq<Instrument<S>>) returns (r: Resolution)
      ensures r == Resolve(Contents(), path, capable)
    {
      if |capable| == 0 { return NoAnswer(NoInstrument); }
      var seen, absent, untrusted := 0, 0, false;
      for i := 0 to |capable|
        invariant forall k :: 0 <= k < i ==> !HasState(Contents(), path, capable[k], StateValue)
        invariant untrusted <==> exists k :: 0 <= k < i && HasState(Contents(), path, capable[k], StateUntrusted)
        invariant 0 <= absent <= seen
        invariant absent > 0 <==> exists k :: 0 <= k < i && HasState(Contents(), path, capable[k], StateAbsent)
        invariant !untrusted ==> absent == seen
      {
        var key := Key(path, capable[i].Name());
        if key in windows {
          var w := windows[key];
          seen := seen + 1;
          var reduced := w.Reduction();
          match reduced.state {
            case StateValue =>
              assert HasState(Contents(), path, capable[i], StateValue);
              return Answer(capable[i].Name(), capable[i].marks, reduced, w.Extent());
            case StateUntrusted => untrusted := true;
            case StateAbsent => absent := absent + 1;
          }
        }
      }
      if untrusted { return NoAnswer(NoneReady); }
      if seen > 0 && absent == seen { return NoAnswer(AllAbsent); }
      return NoAnswer(NoInstrument);
    }

    /** Drives one signal's latch, then those of its refinements whichever way it went. */
    method JudgeTree(n: Node<S>, env: Environment, at: Instant, into: seq<Readiness>, ghost ws: WindowMap)
      returns (judged: Node<S>, rows: seq<Readiness>)
      requires ws == Contents()
      ensures ws == Contents()
      ensures judged == MapNode(n, Judging(ws, env, at))
      ensures rows == into + PreorderNode(n, Reporting(ws, env))
      decreases n
    {
      var latch, row := DriveLatch(n, env, at, ws);
      rows := into + [row];
      var refinements;
      refinements, rows := JudgeTrees(n.refinements, env, at, rows, ws);
      judged := n.(latch := latch, refinements := refinements);
    }

    method DriveLatch(n: Node<S>, env: Environment, at: Instant, ghost ws: WindowMap)
      returns (latch: LatchState, row: Readiness)
      requires ws == Contents()
      ensures ws == Contents()
      ensures latch == JudgeOwn(ws, n, env, at).latch
      ensures row == RowOf(ws, n, env)
    {
      var capable := CapableInstruments(n.instruments, env);
      var r := ResolvePath(n.path, capable);
      latch := DriveHeld(n.latch, r, n.demoteSpan, n.releaseOnAbsent, at);
      row := Readiness(n.path, r.Availability());
    }

    /** Drives the latch object with the resolution. */
    static method DriveHeld(held: LatchState, r: Resolution, demoteSpan: int, releaseOnAbsent: bool, at: Instant)
      returns (after: LatchState)
      ensures after == JudgeLatch(held, r, demoteSpan, releaseOnAbsent, at)
    {
      var latch := new Latch.Holding(held);
      match r {
        case Answer(instrument, marks, reduced, coverage) =>
          latch.Update(instrument, reduced, coverage, marks, at);
        case NoAnswer(why) =>
          if why == AllAbsent && releaseOnAbsent {
            latch.Reset();
          } else {
            latch.ReleaseAfter(demoteSpan, at);
          }
      }
      after := latch.Fields();
    }

    method JudgeTrees(nodes: seq<Node<S>>, env: Environment, at: Instant, into: seq<Readiness>, ghost ws: WindowMap)
      returns (judged: seq<Node<S>>, rows: seq<Readiness>)
      requires ws == Contents()
      ensures ws == Contents()
      ensures judged == MapForest(nodes, Judging(ws, env, at))
      ensures rows == into + Preorder(nodes, Reporting(ws, env))
      decreases nodes
    {
      judged, rows := [], into;
      ghost var f: Node<S> -> Node<S> := Judging(ws, env, at);
      ghost var g: Node<S> -> Readiness := Reporting(ws, env);
      for i := 0 to |nodes|
        invariant ws == Contents()
        invariant judged == MapForest(nodes[..i], f)
        invariant rows == into + Preorder(nodes[..i], g)
      {
        var n;
        n, rows := JudgeTree(nodes[i], env, at, rows, ws);
        NextNode(nodes, i, f, g);
        judged := judged + [n];
      }
      assert nodes[..|nodes|] == nodes;
    }

    /** One tick: the whole new state, the fired set in table order, one row per signal. */
    method Observe(sample: S, env: Environment, at: Instant) returns (fired: seq<Fired>, readiness: seq<Readiness>)
      requires Valid()
      modifies this`signals, this`measurements, windows.Values
      ensures Valid() && State() == Tick(old(State()), sample, env, at)
      ensures fired == FiredForest(signals)
      ensures readiness == RowsOf(Contents(), old(signals), env)
    {
      ObserveTrees(signals, sample, at);
      ghost var ws := Contents();
      measurements := ObserveMeasurements(measurements, sample, at);
      assert Contents() == ws;
      readiness := JudgeAll(env, at);
      fired := FiredForest(signals);
    }

    method JudgeAll(env: Environment, at: Instant) returns (readiness: seq<Readiness>)
      modifies this`signals
      ensures Contents() == old(Contents()) && signals == JudgeForest(Contents(), old(signals), env, at)
      ensures readiness == RowsOf(Contents(), old(signals), env)
    {
      signals, readiness := JudgeTrees(signals, env, at, [], Contents());
    }
  }
}
