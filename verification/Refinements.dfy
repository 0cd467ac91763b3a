/** Every node of the signal tree, refinement or not, evolves exactly as it would alone. */
module Refinements {
  import opened Measure
  import opened Windows
  import opened WindowHistory
  import opened Judge
  import opened Declare
  import opened Engines
  import Sorting

  /** What the caller hands to `Observe` on one tick. */
  datatype Step<S> = Step(sample: S, env: Environment, at: Instant)

  function RunEngine<S>(e: EngineState<S>, steps: seq<Step<S>>): EngineState<S> {
    if steps == [] then e
    else
      var last := steps[|steps| - 1];
      Tick(RunEngine(e, steps[..|steps| - 1]), last.sample, last.env, last.at)
  }

  /** The series one instrument reads over a run. */
  function SeriesOf<S>(inst: Instrument<S>, steps: seq<Step<S>>): (h: seq<Sample>)
    ensures |h| == |steps|
  {
    seq(|steps|, i requires 0 <= i < |steps| =>
      Sample(
        inst.measurement.extract.Read(steps[i].sample), inst.measurement.against.Read(steps[i].sample), steps[i].at))
  }

  // ----- Where the signals of a table sit -----

  /** A signal of the tree with its path and its position among its siblings. */
  datatype Place<!S> = Place(path: string, signal: Signal<S>, index: nat)

  /** All signals of a forest in preorder. */
  function Places<S>(base: string, signals: seq<Signal<S>>, index: nat): seq<Place<S>>
    requires index <= |signals|
    decreases signals, |signals| - index
  {
    if index == |signals| then []
    else PlacesUnder(base + signals[index].name, signals[index], index) + Places(base, signals, index + 1)
  }

  function PlacesUnder<S>(path: string, s: Signal<S>, index: nat): seq<Place<S>>
    decreases s
  {
    [Place(path, s, index)] + Places(path + [SEPARATOR], s.refinements, 0)
  }

  /** The node a place is built into, without what hangs under it. */
  function NodeAt<S>(p: Place<S>): Node<S> {
    var s := p.signal;
    Node(p.path, s.instruments, [],
         NewLatch(Identity(s.name, s.tier, s.attribution, p.index)), s.demoteSpan, s.releaseOnAbsent)
  }

  function Bare<S>(): Node<S> -> Node<S> {
    (n: Node<S>) => n.(refinements := [])
  }

  function Flat<S>(nodes: seq<Node<S>>): seq<Node<S>> {
    Preorder(nodes, Bare())
  }

  lemma {:induction false} PreorderSteps<S, R>(nodes: seq<Node<S>>, g: Node<S> -> R)
    requires nodes != []
    ensures Preorder(nodes, g) == [g(nodes[0])] + Preorder(nodes[0].refinements, g) + Preorder(nodes[1..], g)
  {
    assert PreorderNode(nodes[0], g) == [g(nodes[0])] + Preorder(nodes[0].refinements, g);
  }

  lemma {:induction false} FlatSteps<S>(nodes: seq<Node<S>>)
    requires nodes != []
    ensures Flat(nodes) == [nodes[0].(refinements := [])] + Flat(nodes[0].refinements) + Flat(nodes[1..])
  {
    PreorderSteps(nodes, Bare());
  }

  /** Flattening what was built gives the nodes of the places, in the same order. */
  lemma {:induction false} FlatOfBuilt<S>(base: string, signals: seq<Signal<S>>, index: nat)
    requires index <= |signals|
    ensures var flat, places := Flat(BuildForest(base, signals, index)), Places(base, signals, index);
            |flat| == |places| && forall i :: 0 <= i < |flat| ==> flat[i] == NodeAt(places[i])
    decreases signals, |signals| - index
  {
    if index < |signals| {
      var s := signals[index];
      FlatOfBuilt(base, signals, index + 1);
      FlatOfBuilt(base + s.name + [SEPARATOR], s.refinements, 0);
      var built := BuildForest(base, signals, index);
      assert built[1..] == BuildForest(base, signals, index + 1);
      FlatSteps(built);
    }
  }

  // ----- Paths are distinct -----

  lemma {:induction false} PlacesSitUnder<S>(base: string, signals: seq<Signal<S>>, index: nat, i: nat)
    requires index <= |signals| && i < |Places(base, signals, index)|
    ensures exists k :: index <= k < |signals| && Under(base + signals[k].name, Places(base, signals, index)[i].path)
    decreases signals, |signals| - index
  {
    var s := signals[index];
    var own := PlacesUnder(base + s.name, s, index);
    if i < |own| {
      PlacesUnderSitUnder(base + s.name, s, index, i);
    } else {
      PlacesSitUnder(base, signals, index + 1, i - |own|);
    }
  }

  lemma {:induction false} PlacesUnderSitUnder<S>(path: string, s: Signal<S>, index: nat, i: nat)
    requires i < |PlacesUnder(path, s, index)|
    ensures Under(path, PlacesUnder(path, s, index)[i].path)
    ensures i > 0 ==> PlacesUnder(path, s, index)[i].path != path
    decreases s
  {
    if i > 0 {
      PlacesSitUnder(path + [SEPARATOR], s.refinements, 0, i - 1);
      var p := PlacesUnder(path, s, index)[i].path;
      var k :| 0 <= k < |s.refinements| && Under(path + [SEPARATOR] + s.refinements[k].name, p);
      ChildIsUnderParent(path, s.refinements[k].name, p);
    }
  }

  ghost predicate DistinctPaths<S>(places: seq<Place<S>>) {
    forall i, j :: 0 <= i < j < |places| ==> places[i].path != places[j].path
  }

  predicate ValidForest<S>(signals: seq<Signal<S>>, interval: int) {
    DistinctSignals(signals) && forall i :: 0 <= i < |signals| ==> ValidSignal(signals[i], interval)
  }

  /** Names that are unique among siblings and hold no separator give every signal of the tree,
      at whatever depth, a path of its own. */
  lemma {:induction false} PathsAreDistinct<S>(base: string, signals: seq<Signal<S>>, index: nat, interval: int)
    requires index <= |signals| && ValidForest(signals, interval)
    ensures DistinctPaths(Places(base, signals, index))
    decreases signals, |signals| - index
  {
    if index < |signals| {
      var s := signals[index];
      var own, others := PlacesUnder(base + s.name, s, index), Places(base, signals, index + 1);
      PathsAreDistinct(base, signals, index + 1, interval);
      PathsAreDistinct(base + s.name + [SEPARATOR], s.refinements, 0, interval);
      forall i | 0 < i < |own| ensures own[i].path != own[0].path {
        PlacesUnderSitUnder(base + s.name, s, index, i);
      }
      forall i, j | 0 <= i < |own| && 0 <= j < |others| ensures own[i].path != others[j].path {
        PlacesUnderSitUnder(base + s.name, s, index, i);
        PlacesSitUnder(base, signals, index + 1, j);
        var k :| index + 1 <= k < |signals| && Under(base + signals[k].name, others[j].path);
        if own[i].path == others[j].path {
          SiblingsOwnDisjointPaths(base, s.name, signals[k].name, own[i].path);
        }
      }
    }
  }

  /** Everything in the tree is itself a valid signal. */
  lemma {:induction false} PlaceIsValid<S>(base: string, signals: seq<Signal<S>>, index: nat, interval: int, i: nat)
    requires index <= |signals| && ValidForest(signals, interval) && i < |Places(base, signals, index)|
    ensures ValidSignal(Places(base, signals, index)[i].signal, interval)
    decreases signals, |signals| - index
  {
    var s := signals[index];
    var own := PlacesUnder(base + s.name, s, index);
    if i >= |own| {
      PlaceIsValid(base, signals, index + 1, interval, i - |own|);
    } else if i > 0 {
      PlaceIsValid(base + s.name + [SEPARATOR], s.refinements, 0, interval, i - 1);
    }
  }

  // ----- One tick, flattened -----

  /** `ObserveForest` and `OpenForest` only depend on the flattened forest. */
  function ObserveAll<S>(ws: WindowMap, flat: seq<Node<S>>, sample: S, at: Instant): WindowMap
    decreases |flat|
  {
    if flat == [] then ws
    else ObserveAll(ObserveOwn(ws, flat[0].path, flat[0].instruments, sample, at), flat[1..], sample, at)
  }

  function OpenAll<S>(ws: WindowMap, flat: seq<Node<S>>): WindowMap
    decreases |flat|
  {
    if flat == [] then ws
    else OpenAll(OpenWindows(ws, flat[0].path, flat[0].instruments, flat[0].demoteSpan), flat[1..])
  }

  lemma {:induction false} AllInTwoParts<S>(ws: WindowMap, a: seq<Node<S>>, b: seq<Node<S>>, sample: S, at: Instant)
    ensures ObserveAll(ws, a + b, sample, at) == ObserveAll(ObserveAll(ws, a, sample, at), b, sample, at)
    ensures OpenAll(ws, a + b) == OpenAll(OpenAll(ws, a), b)
    decreases |a|
  {
    if a == [] {
      assert a + b == b;
    } else {
      assert (a + b)[1..] == a[1..] + b;
      AllInTwoParts(ObserveOwn(ws, a[0].path, a[0].instruments, sample, at), a[1..], b, sample, at);
      AllInTwoParts(OpenWindows(ws, a[0].path, a[0].instruments, a[0].demoteSpan), a[1..], b, sample, at);
    }
  }

  lemma {:induction false} ForestIsFlat<S>(ws: WindowMap, nodes: seq<Node<S>>, sample: S, at: Instant)
    ensures ObserveForest(ws, nodes, sample, at) == ObserveAll(ws, Flat(nodes), sample, at)
    ensures OpenForest(ws, nodes) == OpenAll(ws, Flat(nodes))
    decreases nodes
  {
    if nodes != [] {
      var n := nodes[0];
      var head, under, rest := [n.(refinements := [])], Flat(n.refinements), Flat(nodes[1..]);
      FlatSteps(nodes);
      AllInTwoParts(ws, head + under, rest, sample, at);
      AllInTwoParts(ws, head, under, sample, at);
      var observed := ObserveOwn(ws, n.path, n.instruments, sample, at);
      var opened_ := OpenWindows(ws, n.path, n.instruments, n.demoteSpan);
      assert head[1..] == [];
      assert ObserveAll(ws, head, sample, at) == observed && OpenAll(ws, head) == opened_;
      ForestIsFlat(observed, n.refinements, sample, at);
      ForestIsFlat(opened_, n.refinements, sample, at);
      ForestIsFlat(ObserveForest(observed, n.refinements, sample, at), nodes[1..], sample, at);
      ForestIsFlat(OpenForest(opened_, n.refinements), nodes[1..], sample, at);
    }
  }

  /** A node map that looks past the refinements and leaves them alone. */
  ghost predicate Local<S(!new), R(!new)>(f: Node<S> -> Node<S>, g: Node<S> -> R) {
    && (forall n: Node<S> :: f(n).(refinements := []) == f(n.(refinements := [])))
    && (forall n: Node<S> :: g(n) == g(n.(refinements := [])))
  }

  /** Mapping and listing a forest is mapping and listing each flattened node. */
  lemma {:induction false} MappedFlat<S(!new), R(!new)>(nodes: seq<Node<S>>, f: Node<S> -> Node<S>, g: Node<S> -> R)
    requires Local(f, g)
    ensures |Flat(MapForest(nodes, f))| == |Flat(nodes)| == |Preorder(nodes, g)|
    ensures forall i :: 0 <= i < |Flat(nodes)| ==> Flat(MapForest(nodes, f))[i] == f(Flat(nodes)[i])
    ensures forall i :: 0 <= i < |Flat(nodes)| ==> Preorder(nodes, g)[i] == g(Flat(nodes)[i])
    decreases nodes
  {
    if nodes != [] {
      var n := nodes[0];
      MappedFlat(n.refinements, f, g);
      MappedFlat(nodes[1..], f, g);
      var mapped, rest := MapNode(n, f), MapForest(nodes[1..], f);
      assert MapForest(nodes, f) == [mapped] + rest && ([mapped] + rest)[1..] == rest;
      assert f(n).(refinements := []) == f(n.(refinements := []));
      FlatSteps(nodes);
      FlatSteps([mapped] + rest);
      PreorderSteps(nodes, g);
    }
  }

  /** Judging and reporting a forest is judging and reporting each flattened node. */
  lemma JudgedFlat<S(!new)>(ws: WindowMap, nodes: seq<Node<S>>, env: Environment, at: Instant)
    ensures var before, after, rows := Flat(nodes), Flat(JudgeForest(ws, nodes, env, at)), RowsOf(ws, nodes, env);
            && |after| == |before| == |rows|
            && (forall i :: 0 <= i < |before| ==> after[i] == JudgeOwn(ws, before[i], env, at))
            && (forall i :: 0 <= i < |before| ==> rows[i] == RowOf(ws, before[i], env))
  {
    MappedFlat(nodes, Judging(ws, env, at), Reporting(ws, env));
  }

  // ----- Each window is touched once, by its own signal -----

  lemma {:induction false} OwnFrame<S>(
    ws: WindowMap, path: string, insts: seq<Instrument<S>>, demoteSpan: int, sample: S, at: Instant, key: Key)
    requires forall i :: 0 <= i < |insts| ==> key != Key(path, insts[i].Name())
    ensures var o := ObserveOwn(ws, path, insts, sample, at);
            (key in o <==> key in ws) && (key in ws ==> o[key] == ws[key])
    ensures var o := OpenWindows(ws, path, insts, demoteSpan);
            (key in o <==> key in ws) && (key in ws ==> o[key] == ws[key])
    decreases |insts|
  {
    if insts != [] {
      var first := Key(path, insts[0].Name());
      var m := insts[0].measurement;
      OwnFrame(if first in ws then
                 ws[first := Windows.Observe(ws[first], m.extract.Read(sample), m.against.Read(sample), at)]
               else ws, path, insts[1..], demoteSpan, sample, at, key);
      OwnFrame(ws[first := Empty(insts[0].WindowConfig(demoteSpan))], path, insts[1..], demoteSpan, sample, at, key);
    }
  }

  lemma {:induction false} OwnEffect<S>(
    ws: WindowMap, path: string, insts: seq<Instrument<S>>, demoteSpan: int, sample: S, at: Instant, k: nat)
    requires DistinctInstruments(insts) && k < |insts|
    ensures var key, m := Key(path, insts[k].Name()), insts[k].measurement;
            && (key in ws ==>
                  && key in ObserveOwn(ws, path, insts, sample, at)
                  && ObserveOwn(ws, path, insts, sample, at)[key]
                     == Windows.Observe(ws[key], m.extract.Read(sample), m.against.Read(sample), at))
            && key in OpenWindows(ws, path, insts, demoteSpan)
            && OpenWindows(ws, path, insts, demoteSpan)[key] == Empty(insts[k].WindowConfig(demoteSpan))
    decreases |insts|
  {
    var first, m := Key(path, insts[0].Name()), insts[0].measurement;
    var observed :=
      if first in ws then ws[first := Windows.Observe(ws[first], m.extract.Read(sample), m.against.Read(sample), at)]
      else ws;
    var opened_ := ws[first := Empty(insts[0].WindowConfig(demoteSpan))];
    if k == 0 {
      OwnFrame(observed, path, insts[1..], demoteSpan, sample, at, first);
      OwnFrame(opened_, path, insts[1..], demoteSpan, sample, at, first);
    } else {
      OwnEffect(observed, path, insts[1..], demoteSpan, sample, at, k - 1);
      OwnEffect(opened_, path, insts[1..], demoteSpan, sample, at, k - 1);
    }
  }

  ghost predicate WellKeyed<S>(flat: seq<Node<S>>) {
    && (forall i, j :: 0 <= i < j < |flat| ==> flat[i].path != flat[j].path)
    && (forall i :: 0 <= i < |flat| ==> DistinctInstruments(flat[i].instruments))
  }

  lemma {:induction false} AllFrame<S>(ws: WindowMap, flat: seq<Node<S>>, sample: S, at: Instant, key: Key)
    requires forall i :: 0 <= i < |flat| ==> flat[i].path != key.path
    ensures var o := ObserveAll(ws, flat, sample, at);
            (key in o <==> key in ws) && (key in ws ==> o[key] == ws[key])
    ensures var o := OpenAll(ws, flat); (key in o <==> key in ws) && (key in ws ==> o[key] == ws[key])
    decreases |flat|
  {
    if flat != [] {
      var n := flat[0];
      OwnFrame(ws, n.path, n.instruments, n.demoteSpan, sample, at, key);
      AllFrame(ObserveOwn(ws, n.path, n.instruments, sample, at), flat[1..], sample, at, key);
      AllFrame(OpenWindows(ws, n.path, n.instruments, n.demoteSpan), flat[1..], sample, at, key);
    }
  }

  /** One pass over the whole tree advances each window by exactly its own reading. */
  lemma {:induction false} AllEffect<S>(ws: WindowMap, flat: seq<Node<S>>, sample: S, at: Instant, i: nat, k: nat)
    requires WellKeyed(flat) && i < |flat| && k < |flat[i].instruments|
    ensures var inst := flat[i].instruments[k]; var key, m := Key(flat[i].path, inst.Name()), inst.measurement;
            && (key in ws ==>
                  && key in ObserveAll(ws, flat, sample, at)
                  && ObserveAll(ws, flat, sample, at)[key]
                     == Windows.Observe(ws[key], m.extract.Read(sample), m.against.Read(sample), at))
            && key in OpenAll(ws, flat)
            && OpenAll(ws, flat)[key] == Empty(inst.WindowConfig(flat[i].demoteSpan))
    decreases |flat|
  {
    var n := flat[0];
    var observed := ObserveOwn(ws, n.path, n.instruments, sample, at);
    var opened_ := OpenWindows(ws, n.path, n.instruments, n.demoteSpan);
    if i == 0 {
      OwnEffect(ws, n.path, n.instruments, n.demoteSpan, sample, at, k);
      AllFrame(observed, flat[1..], sample, at, Key(n.path, n.instruments[k].Name()));
      AllFrame(opened_, flat[1..], sample, at, Key(n.path, n.instruments[k].Name()));
    } else {
      var key := Key(flat[i].path, flat[i].instruments[k].Name());
      OwnFrame(ws, n.path, n.instruments, n.demoteSpan, sample, at, key);
      AllEffect(observed, flat[1..], sample, at, i - 1, k);
      AllEffect(opened_, flat[1..], sample, at, i - 1, k);
    }
  }

  // ----- Whole runs -----

  /** The windows one signal's instruments have after a run, each folded over its own series. */
  ghost function OwnWindows<S>(path: string, insts: seq<Instrument<S>>, demoteSpan: int, steps: seq<Step<S>>): WindowMap {
    if insts == [] then map[]
    else OwnWindows(path, insts[1..], demoteSpan, steps)
         [Key(path, insts[0].Name()) := Run(insts[0].WindowConfig(demoteSpan), SeriesOf(insts[0], steps))]
  }

  /** What a signal can say after a run, from its own windows only. */
  ghost function OwnAnswer<S>(n: Node<S>, steps: seq<Step<S>>, env: Environment): Resolution {
    Resolve(OwnWindows(n.path, n.instruments, n.demoteSpan, steps), n.path, CapableOf(n.instruments, env))
  }

  /** The latch of a signal after a run, from its own windows only. */
  ghost function OwnLatch<S>(n: Node<S>, steps: seq<Step<S>>): LatchState {
    if steps == [] then n.latch
    else
      var last := steps[|steps| - 1];
      JudgeLatch(OwnLatch(n, steps[..|steps| - 1]), OwnAnswer(n, steps, last.env), n.demoteSpan, n.releaseOnAbsent, last.at)
  }

  lemma {:induction false} OwnWindowAt<S>(path: string, insts: seq<Instrument<S>>, demoteSpan: int, steps: seq<Step<S>>, k: nat)
    requires DistinctInstruments(insts) && k < |insts|
    ensures var key, ws := Key(path, insts[k].Name()), OwnWindows(path, insts, demoteSpan, steps);
            key in ws && ws[key] == Run(insts[k].WindowConfig(demoteSpan), SeriesOf(insts[k], steps))
  {
    if k > 0 { OwnWindowAt(path, insts[1..], demoteSpan, steps, k - 1); }
  }

  /** Two window maps hold equal windows for the same instruments under two paths. */
  ghost predicate SameWindows<S>(ws1: WindowMap, p1: string, ws2: WindowMap, p2: string, insts: seq<Instrument<S>>) {
    forall i :: 0 <= i < |insts| ==>
      && Key(p1, insts[i].Name()) in ws1
      && Key(p2, insts[i].Name()) in ws2
      && ws1[Key(p1, insts[i].Name())] == ws2[Key(p2, insts[i].Name())]
  }

  lemma {:induction false} SameForCapable<S>(
    ws1: WindowMap, p1: string, ws2: WindowMap, p2: string, insts: seq<Instrument<S>>, env: Environment)
    requires SameWindows(ws1, p1, ws2, p2, insts)
    ensures SameWindows(ws1, p1, ws2, p2, CapableOf(insts, env))
  {
    if insts != [] { SameForCapable(ws1, p1, ws2, p2, insts[1..], env); }
  }

  lemma {:induction false} FirstReadyAgrees<S>(ws1: WindowMap, p1: string, ws2: WindowMap, p2: string, insts: seq<Instrument<S>>)
    requires SameWindows(ws1, p1, ws2, p2, insts)
    ensures FirstReady(ws1, p1, insts) == FirstReady(ws2, p2, insts)
  {
    if insts != [] {
      assert HasState(ws1, p1, insts[0], StateValue) == HasState(ws2, p2, insts[0], StateValue);
      FirstReadyAgrees(ws1, p1, ws2, p2, insts[1..]);
    }
  }

  lemma {:induction false} AnswersAgree<S>(ws1: WindowMap, p1: string, ws2: WindowMap, p2: string, insts: seq<Instrument<S>>)
    requires SameWindows(ws1, p1, ws2, p2, insts)
    ensures Resolve(ws1, p1, insts) == Resolve(ws2, p2, insts)
  {
    FirstReadyAgrees(ws1, p1, ws2, p2, insts);
    forall st, i | 0 <= i < |insts| ensures HasState(ws1, p1, insts[i], st) == HasState(ws2, p2, insts[i], st) {}
    assert forall st :: AnyHas(ws1, p1, insts, st) <==> AnyHas(ws2, p2, insts, st);
  }

  lemma {:induction false} SeriesGrows<S>(inst: Instrument<S>, steps: seq<Step<S>>)
    requires steps != []
    ensures SeriesOf(inst, steps)[..|steps| - 1] == SeriesOf(inst, steps[..|steps| - 1])
  {
  }

  /** Engine state `e` is what `steps` make of a forest whose flattened nodes were `start`. */
  ghost predicate Follows<S>(e: EngineState<S>, start: seq<Node<S>>, steps: seq<Step<S>>) {
    && |Flat(e.signals)| == |start|
    && (forall i :: 0 <= i < |start| ==> Flat(e.signals)[i] == start[i].(latch := OwnLatch(start[i], steps)))
    && (forall i, k :: 0 <= i < |start| && 0 <= k < |start[i].instruments| ==> HoldsOwn(e.windows, start[i], k, steps))
  }

  ghost predicate HoldsOwn<S>(ws: WindowMap, n: Node<S>, k: nat, steps: seq<Step<S>>)
    requires k < |n.instruments|
  {
    var inst := n.instruments[k];
    var key := Key(n.path, inst.Name());
    key in ws && ws[key] == Run(inst.WindowConfig(n.demoteSpan), SeriesOf(inst, steps))
  }

  lemma {:induction false} OwnAnswerIsResolve<S>(ws: WindowMap, n: Node<S>, steps: seq<Step<S>>, env: Environment)
    requires DistinctInstruments(n.instruments)
    requires forall k :: 0 <= k < |n.instruments| ==> HoldsOwn(ws, n, k, steps)
    ensures ResolveNode(ws, n, env) == OwnAnswer(n, steps, env)
  {
    var own := OwnWindows(n.path, n.instruments, n.demoteSpan, steps);
    forall k | 0 <= k < |n.instruments|
      ensures var key := Key(n.path, n.instruments[k].Name()); key in ws && key in own && ws[key] == own[key]
    {
      OwnWindowAt(n.path, n.instruments, n.demoteSpan, steps, k);
      assert HoldsOwn(ws, n, k, steps);
    }
    SameForCapable(ws, n.path, own, n.path, n.instruments, env);
    AnswersAgree(ws, n.path, own, n.path, CapableOf(n.instruments, env));
  }

  lemma {:induction false} TickFollows<S(!new)>(e: EngineState<S>, start: seq<Node<S>>, steps: seq<Step<S>>)
    requires steps != [] && WellKeyed(start) && Follows(e, start, steps[..|steps| - 1])
    ensures var s := steps[|steps| - 1]; Follows(Tick(e, s.sample, s.env, s.at), start, steps)
  {
    var s, flat := steps[|steps| - 1], Flat(e.signals);
    var ws := ObserveForest(e.windows, e.signals, s.sample, s.at);
    ForestIsFlat(e.windows, e.signals, s.sample, s.at);
    JudgedFlat(ws, e.signals, s.env, s.at);
    assert WellKeyed(flat);
    forall i, k | 0 <= i < |start| && 0 <= k < |start[i].instruments| ensures HoldsOwn(ws, start[i], k, steps) {
      assert HoldsOwn(e.windows, start[i], k, steps[..|steps| - 1]);
      AllEffect(e.windows, flat, s.sample, s.at, i, k);
      SeriesGrows(start[i].instruments[k], steps);
    }
    forall i | 0 <= i < |start|
      ensures Flat(Tick(e, s.sample, s.env, s.at).signals)[i] == start[i].(latch := OwnLatch(start[i], steps))
    {
      OwnAnswerIsResolve(ws, start[i], steps, s.env);
      assert ResolveNode(ws, flat[i], s.env) == ResolveNode(ws, start[i], s.env);
    }
  }

  function StartOf<S>(t: Table<S>): seq<Node<S>> {
    Flat(BuildForest("", t.signals, 0))
  }

  lemma StartIsWellKeyed<S>(t: Table<S>)
    requires ValidTable(t)
    ensures WellKeyed(StartOf(t))
    ensures var places := Places("", t.signals, 0);
            |StartOf(t)| == |places| && forall i :: 0 <= i < |places| ==> StartOf(t)[i] == NodeAt(places[i])
  {
    FlatOfBuilt("", t.signals, 0);
    PathsAreDistinct("", t.signals, 0, t.interval);
    var places := Places("", t.signals, 0);
    forall i | 0 <= i < |places| ensures DistinctInstruments(places[i].signal.instruments) {
      PlaceIsValid("", t.signals, 0, t.interval, i);
    }
  }

  /** Over any run of the engine, every signal of the tree has the latch and the windows its own
      readings give it, whatever its parents, siblings and refinements do. */
  lemma {:induction false} EngineFollowsEachSignal<S(00,!new)>(t: Table<S>, steps: seq<Step<S>>)
    requires ValidTable(t)
    ensures Follows(RunEngine(NewState(t), steps), StartOf(t), steps)
    decreases |steps|
  {
    StartIsWellKeyed(t);
    var start := StartOf(t);
    if steps == [] {
      forall i, k | 0 <= i < |start| && 0 <= k < |start[i].instruments|
        ensures HoldsOwn(NewState(t).windows, start[i], k, steps)
      {
        FlatWindowsOpen(t, i, k);
      }
    } else {
      EngineFollowsEachSignal(t, steps[..|steps| - 1]);
      TickFollows(RunEngine(NewState(t), steps[..|steps| - 1]), start, steps);
    }
  }

  lemma {:induction false} FlatWindowsOpen<S(00,!new)>(t: Table<S>, i: nat, k: nat)
    requires WellKeyed(StartOf(t)) && i < |StartOf(t)| && k < |StartOf(t)[i].instruments|
    ensures var n := StartOf(t)[i]; var inst := n.instruments[k];
            Key(n.path, inst.Name()) in NewState(t).windows
            && NewState(t).windows[Key(n.path, inst.Name())] == Empty(inst.WindowConfig(n.demoteSpan))
  {
    var nodes := BuildForest("", t.signals, 0);
    var sample: S := *;
    ForestIsFlat(map[], nodes, sample, ZERO_TIME);
    AllEffect(map[], StartOf(t), sample, ZERO_TIME, i, k);
  }

  /** The table that declares one signal of the tree on its own. */
  function Alone<S>(s: Signal<S>, interval: int): Table<S> {
    Table([s], [], interval)
  }

  lemma AloneIsValid<S>(s: Signal<S>, interval: int)
    requires ValidSignal(s, interval)
    ensures ValidTable(Alone(s, interval))
    ensures |StartOf(Alone(s, interval))| > 0 && StartOf(Alone(s, interval))[0] == NodeAt(Place(s.name, s, 0))
  {
    FlatOfBuilt("", [s], 0);
    var places := Places("", [s], 0);
    assert "" + s.name == s.name;
    assert places[0] == Place(s.name, s, 0);
  }

  /** A latch's identity is only carried along. */
  lemma JudgingCarriesIdentity(l: LatchState, r: Resolution, demoteSpan: int, roa: bool, at: Instant, id: Identity)
    ensures JudgeLatch(l.(identity := id), r, demoteSpan, roa, at) == JudgeLatch(l, r, demoteSpan, roa, at).(identity := id)
    ensures JudgeLatch(l, r, demoteSpan, roa, at).identity == l.identity
  {
  }

  lemma {:induction false} OwnLatchIgnoresPlace<S>(n: Node<S>, moved: Node<S>, steps: seq<Step<S>>)
    requires DistinctInstruments(n.instruments)
    requires moved == n.(path := moved.path, latch := n.latch.(identity := moved.latch.identity))
    ensures OwnLatch(moved, steps) == OwnLatch(n, steps).(identity := moved.latch.identity)
    ensures OwnLatch(n, steps).identity == n.latch.identity
  {
    if steps != [] {
      var last := steps[|steps| - 1];
      OwnLatchIgnoresPlace(n, moved, steps[..|steps| - 1]);
      OwnAnswerIgnoresPath(n, moved, steps, last.env);
      JudgingCarriesIdentity(
        OwnLatch(n, steps[..|steps| - 1]), OwnAnswer(n, steps, last.env), n.demoteSpan, n.releaseOnAbsent, last.at,
        moved.latch.identity);
    }
  }

  lemma {:induction false} OwnAnswerIgnoresPath<S>(n: Node<S>, moved: Node<S>, steps: seq<Step<S>>, env: Environment)
    requires DistinctInstruments(n.instruments)
    requires moved.instruments == n.instruments && moved.demoteSpan == n.demoteSpan
    ensures OwnAnswer(n, steps, env) == OwnAnswer(moved, steps, env)
  {
    var insts := n.instruments;
    var ws1 := OwnWindows(n.path, insts, n.demoteSpan, steps);
    var ws2 := OwnWindows(moved.path, insts, n.demoteSpan, steps);
    forall k | 0 <= k < |insts|
      ensures Key(n.path, insts[k].Name()) in ws1 && Key(moved.path, insts[k].Name()) in ws2
      ensures ws1[Key(n.path, insts[k].Name())] == ws2[Key(moved.path, insts[k].Name())]
    {
      OwnWindowAt(n.path, insts, n.demoteSpan, steps, k);
      OwnWindowAt(moved.path, insts, n.demoteSpan, steps, k);
    }
    SameForCapable(ws1, n.path, ws2, moved.path, insts, env);
    AnswersAgree(ws1, n.path, ws2, moved.path, CapableOf(insts, env));
  }

  /** Signal `p` of a tree, in engine state `e` at preorder position `i`, is as the same signal is
      in engine state `a`, where it is the first: the same latch but for the position in its
      identity, equal windows, and a readiness row that differs only in the path naming it. */
  ghost predicate SameAsAlone<S>(e: EngineState<S>, i: nat, p: Place<S>, a: EngineState<S>, env: Environment) {
    && i < |Flat(e.signals)| == |RowsOf(e.windows, e.signals, env)|
    && 0 < |Flat(a.signals)| == |RowsOf(a.windows, a.signals, env)|
    && var own, alone := Flat(e.signals)[i], Flat(a.signals)[0];
    && own.path == p.path
    && own.instruments == alone.instruments == p.signal.instruments
    && own.latch == alone.latch.(identity := alone.latch.identity.(index := p.index))
    && SameWindows(e.windows, p.path, a.windows, p.signal.name, p.signal.instruments)
    && RowsOf(e.windows, e.signals, env)[i] == Readiness(p.path, RowsOf(a.windows, a.signals, env)[0].availability)
  }

  /** Refinement independence: after every run, every signal of the tree is as it would be as the
      only signal of a table of its own; and there is one readiness row per signal, in preorder. */
  lemma EachSignalEvolvesAlone<S(00,!new)>(t: Table<S>, steps: seq<Step<S>>, i: nat, env: Environment)
    requires ValidTable(t) && i < |Places("", t.signals, 0)|
    ensures var p, e := Places("", t.signals, 0)[i], RunEngine(NewState(t), steps);
            && |RowsOf(e.windows, e.signals, env)| == |Places("", t.signals, 0)|
            && SameAsAlone(e, i, p, RunEngine(NewState(Alone(p.signal, t.interval)), steps), env)
  {
    var p := Places("", t.signals, 0)[i];
    var ta := Alone(p.signal, t.interval);
    PlaceIsValid("", t.signals, 0, t.interval, i);
    AloneIsValid(p.signal, t.interval);
    StartIsWellKeyed(t);
    StartIsWellKeyed(ta);
    EngineFollowsEachSignal(t, steps);
    EngineFollowsEachSignal(ta, steps);
    FollowersAgree(
      RunEngine(NewState(t), steps), StartOf(t), i, RunEngine(NewState(ta), steps), StartOf(ta), p, steps, env);
  }

  lemma FollowersAgree<S(!new)>(
    e: EngineState<S>, start: seq<Node<S>>, i: nat, a: EngineState<S>, aloneStart: seq<Node<S>>, p: Place<S>,
    steps: seq<Step<S>>, env: Environment)
    requires WellKeyed(start) && Follows(e, start, steps) && i < |start| && start[i] == NodeAt(p)
    requires WellKeyed(aloneStart) && Follows(a, aloneStart, steps)
    requires 0 < |aloneStart| && aloneStart[0] == NodeAt(Place(p.signal.name, p.signal, 0))
    ensures SameAsAlone(e, i, p, a, env)
    ensures |RowsOf(e.windows, e.signals, env)| == |start|
  {
    var n, m := start[i], aloneStart[0];
    OwnLatchIgnoresPlace(m, n, steps);
    forall k | 0 <= k < |n.instruments|
      ensures var name := n.instruments[k].Name();
              && Key(n.path, name) in e.windows && Key(m.path, name) in a.windows
              && e.windows[Key(n.path, name)] == a.windows[Key(m.path, name)]
    {
      assert HoldsOwn(e.windows, n, k, steps) && HoldsOwn(a.windows, m, k, steps);
    }
    RowFollows(e, start, steps, env, i);
    RowFollows(a, aloneStart, steps, env, 0);
    OwnAnswerIgnoresPath(n, m, steps, env);
  }

  lemma RowFollows<S(!new)>(e: EngineState<S>, start: seq<Node<S>>, steps: seq<Step<S>>, env: Environment, i: nat)
    requires WellKeyed(start) && Follows(e, start, steps) && i < |start|
    ensures |RowsOf(e.windows, e.signals, env)| == |start|
    ensures RowsOf(e.windows, e.signals, env)[i] == Readiness(start[i].path, OwnAnswer(start[i], steps, env).Availability())
  {
    JudgedFlat(e.windows, e.signals, env, ZERO_TIME);
    forall k | 0 <= k < |start[i].instruments| ensures HoldsOwn(e.windows, start[i], k, steps) {}
    OwnAnswerIsResolve(e.windows, start[i], steps, env);
    assert ResolveNode(e.windows, Flat(e.signals)[i], env) == ResolveNode(e.windows, start[i], env);
  }

  // ----- What is reported -----

  /** Sibling positions are the identities' indexes, at every depth. */
  ghost predicate Indexed<S>(nodes: seq<Node<S>>) {
    forall i :: 0 <= i < |nodes| ==> nodes[i].latch.identity.index == i && Indexed(nodes[i].refinements)
  }

  /** The node reached by following sibling positions down the tree, every node on the way fired. */
  ghost predicate FiredAlong<S>(nodes: seq<Node<S>>, trail: seq<nat>, v: Fired)
    decreases |trail|
  {
    && trail != [] && trail[0] < |nodes|
    && var n := nodes[trail[0]];
    && n.latch.fired
    && if |trail| == 1 then v == Verdict(n.latch) else FiredAlong(n.refinements, trail[1..], v)
  }

  /** Verdict `v` is reported at the nesting position `trail`. */
  ghost predicate Reports(fired: seq<Fired>, trail: seq<nat>, v: Fired)
    decreases |trail|
  {
    && trail != []
    && exists i :: 0 <= i < |fired| && ReportsIn(fired[i], trail, v)
  }

  ghost predicate ReportsIn(f: Fired, trail: seq<nat>, v: Fired)
    requires trail != []
    decreases |trail|, 0
  {
    && f.identity.index == trail[0]
    && if |trail| == 1 then v == f.(refinements := []) else Reports(f.refinements, trail[1..], v)
  }

  lemma {:induction false} FiredForestMembers<S>(nodes: seq<Node<S>>, f: Fired)
    ensures f in FiredForest(nodes) <==> exists k :: 0 <= k < |nodes| && nodes[k].latch.fired && f == FiredNode(nodes[k])
  {
    if nodes != [] {
      FiredForestMembers(nodes[1..], f);
      forall k | 0 < k < |nodes| ensures nodes[k] == nodes[1..][k - 1] {}
    }
  }

  lemma {:induction false} SortedMembers(fired: seq<Fired>, f: Fired)
    ensures f in Sorting.SortBy(fired, Precedes) <==> f in fired
  {
    ComparatorsAreOrders();
    Sorting.SortByOutcome(fired, Precedes);
    assert f in fired <==> f in multiset(fired);
    assert f in Sorting.SortBy(fired, Precedes) <==> f in multiset(Sorting.SortBy(fired, Precedes));
  }

  /** A verdict is reported, nested at `trail`, exactly when the signal there and every signal
      above it has fired, and what is reported is that signal's own latch's verdict. */
  lemma {:induction false} ReportedExactlyUnderFired<S>(nodes: seq<Node<S>>, trail: seq<nat>, v: Fired)
    requires Indexed(nodes)
    ensures Reports(FiredForest(nodes), trail, v) <==> FiredAlong(nodes, trail, v)
    decreases |trail|
  {
    if trail != [] {
      var fired := FiredForest(nodes);
      forall k | 0 <= k < |nodes| && nodes[k].latch.fired
        ensures ReportsIn(FiredNode(nodes[k]), trail, v) <==> k == trail[0] && FiredAlong(nodes, trail, v)
      {
        if |trail| > 1 && k == trail[0] {
          ReportedExactlyUnderFired(nodes[k].refinements, trail[1..], v);
          var nested := FiredForest(nodes[k].refinements);
          forall f ensures f in Sorting.SortBy(nested, Precedes) <==> f in nested { SortedMembers(nested, f); }
          SameReports(nested, Sorting.SortBy(nested, Precedes), trail[1..], v);
        }
      }
      if Reports(fired, trail, v) {
        var i :| 0 <= i < |fired| && ReportsIn(fired[i], trail, v);
        FiredForestMembers(nodes, fired[i]);
      }
      if FiredAlong(nodes, trail, v) {
        FiredForestMembers(nodes, FiredNode(nodes[trail[0]]));
        assert FiredNode(nodes[trail[0]]) in fired;
      }
    }
  }

  lemma SameReports(a: seq<Fired>, b: seq<Fired>, trail: seq<nat>, v: Fired)
    requires forall f :: f in a <==> f in b
    ensures Reports(a, trail, v) <==> Reports(b, trail, v)
  {
    if Reports(a, trail, v) {
      var i :| 0 <= i < |a| && ReportsIn(a[i], trail, v);
      assert a[i] in b;
    }
    if Reports(b, trail, v) {
      var i :| 0 <= i < |b| && ReportsIn(b[i], trail, v);
      assert b[i] in a;
    }
  }

  lemma {:induction false} BuiltIsIndexed<S>(base: string, signals: seq<Signal<S>>, index: nat)
    requires index <= |signals|
    ensures var nodes := BuildForest(base, signals, index);
            |nodes| == |signals| - index
            && forall i :: 0 <= i < |nodes| ==> nodes[i].latch.identity.index == index + i && Indexed(nodes[i].refinements)
    decreases signals, |signals| - index
  {
    if index < |signals| {
      BuiltIsIndexed(base, signals, index + 1);
      BuiltIsIndexed(base + signals[index].name + [SEPARATOR], signals[index].refinements, 0);
      assert Indexed(BuildForest(base + signals[index].name + [SEPARATOR], signals[index].refinements, 0));
    }
  }

  lemma {:induction false} JudgingKeepsIndexed<S>(ws: WindowMap, nodes: seq<Node<S>>, k: nat, env: Environment, at: Instant)
    requires forall i :: 0 <= i < |nodes| ==> nodes[i].latch.identity.index == k + i && Indexed(nodes[i].refinements)
    ensures var judged := JudgeForest(ws, nodes, env, at);
            |judged| == |nodes|
            && forall i :: 0 <= i < |judged| ==> judged[i].latch.identity.index == k + i && Indexed(judged[i].refinements)
    decreases nodes
  {
    if nodes != [] {
      JudgingKeepsIndexed(ws, nodes[0].refinements, 0, env, at);
      JudgingKeepsIndexed(ws, nodes[1..], k + 1, env, at);
      var own := JudgeOwn(ws, nodes[0], env, at);
      assert own.latch.identity == nodes[0].latch.identity;
      var judged := MapNode(nodes[0], Judging(ws, env, at));
      assert judged == own.(refinements := JudgeForest(ws, nodes[0].refinements, env, at));
      assert JudgeForest(ws, nodes, env, at) == [judged] + JudgeForest(ws, nodes[1..], env, at);
      assert Indexed(JudgeForest(ws, nodes[0].refinements, env, at));
    }
  }

  lemma {:induction false} RunsStayIndexed<S>(t: Table<S>, steps: seq<Step<S>>)
    ensures Indexed(RunEngine(NewState(t), steps).signals)
  {
    if steps == [] {
      BuiltIsIndexed("", t.signals, 0);
    } else {
      var e, s := RunEngine(NewState(t), steps[..|steps| - 1]), steps[|steps| - 1];
      RunsStayIndexed(t, steps[..|steps| - 1]);
      JudgingKeepsIndexed(ObserveForest(e.windows, e.signals, s.sample, s.at), e.signals, 0, s.env, s.at);
    }
  }

  lemma {:induction false} FiredIndexesDistinct<S>(nodes: seq<Node<S>>, k: nat)
    requires forall i :: 0 <= i < |nodes| ==> nodes[i].latch.identity.index == k + i
    ensures DistinctIndexes(FiredForest(nodes))
    ensures forall i :: 0 <= i < |FiredForest(nodes)| ==> FiredForest(nodes)[i].identity.index >= k
  {
    if nodes != [] { FiredIndexesDistinct(nodes[1..], k + 1); }
  }

  /** After any run: what the engine reports is exactly the fired signals under fired parents, and
      the top level has one ranking, whatever the sort does with ties and however the set arrives. */
  lemma ReportOfAnyRun<S>(t: Table<S>, steps: seq<Step<S>>, trail: seq<nat>, v: Fired)
    ensures var e := RunEngine(NewState(t), steps);
            && (Reports(FiredForest(e.signals), trail, v) <==> FiredAlong(e.signals, trail, v))
            && (forall f, r1, r2 :: multiset(f) == multiset(FiredForest(e.signals))
                  && Sorting.SortOutcome(FiredForest(e.signals), r1, Outranks) && Sorting.SortOutcome(f, r2, Outranks)
                  ==> r1 == r2)
  {
    RunsStayIndexed(t, steps);
    var e := RunEngine(NewState(t), steps);
    ReportedExactlyUnderFired(e.signals, trail, v);
    FiredIndexesDistinct(e.signals, 0);
    forall f, r1, r2 | multiset(f) == multiset(FiredForest(e.signals))
                       && Sorting.SortOutcome(FiredForest(e.signals), r1, Outranks) && Sorting.SortOutcome(f, r2, Outranks)
      ensures r1 == r2
    {
      RankIsCanonical(FiredForest(e.signals), f, r1, r2);
    }
  }

  /** Under any node of the tree, at any depth, every outcome of sorting its fired refinements is
      the one reported. */
  lemma NestedOrderOfAnyNode<S>(n: Node<S>, r: seq<Fired>)
    requires Indexed(n.refinements) && Sorting.SortOutcome(FiredForest(n.refinements), r, Precedes)
    ensures FiredNode(n).refinements == r
  {
    var nested := FiredForest(n.refinements);
    FiredIndexesDistinct(n.refinements, 0);
    ComparatorsAreOrders();
    Sorting.SortByOutcome(nested, Precedes);
    NestedOrderIsCanonical(nested, nested, Sorting.SortBy(nested, Precedes), r);
  }

  /** Node `n` is the one at `trail`, following sibling positions down the tree. */
  ghost predicate Reaches<S>(nodes: seq<Node<S>>, trail: seq<nat>, n: Node<S>)
    decreases |trail|
  {
    && trail != [] && trail[0] < |nodes|
    && if |trail| == 1 then n == nodes[trail[0]] else Reaches(nodes[trail[0]].refinements, trail[1..], n)
  }

  lemma {:induction false} ReachedIsIndexed<S>(nodes: seq<Node<S>>, trail: seq<nat>, n: Node<S>)
    requires Indexed(nodes) && Reaches(nodes, trail, n)
    ensures Indexed(n.refinements)
    decreases |trail|
  {
    if |trail| > 1 { ReachedIsIndexed(nodes[trail[0]].refinements, trail[1..], n); }
  }

  /** After any run the nested order is just as unique under every signal, at whatever depth. */
  lemma NestedOrderOfAnyRun<S>(t: Table<S>, steps: seq<Step<S>>, trail: seq<nat>, n: Node<S>, f: seq<Fired>, r: seq<Fired>)
    requires Reaches(RunEngine(NewState(t), steps).signals, trail, n)
    requires multiset(f) == multiset(FiredForest(n.refinements)) && Sorting.SortOutcome(f, r, Precedes)
    ensures FiredNode(n).refinements == r
  {
    RunsStayIndexed(t, steps);
    ReachedIsIndexed(RunEngine(NewState(t), steps).signals, trail, n);
    NestedOrderOfAnyNode(n, r);
  }
}
