/** The outcome table of the conformance suite, proved for every table, environment and feed. */
module Conformance {
  import opened Measure
  import opened Windows
  import opened WindowHistory
  import opened Judge
  import opened Declare
  import opened Engines
  import opened Refinements
  import opened Suites

  /** What a feed promises about one instrument: readable snapshots carry finite values, the
      denominator strictly increasing and a counter never falling; unreadable ones carry none. */
  ghost predicate Feeds<S>(f: Feed<S>, inst: Instrument<S>) {
    var m := inst.measurement;
    && (forall at :: m.extract.Read(f.readable(at)).Known?)
    && (m.against.Extract? ==> forall at :: m.against.Read(f.readable(at)).Known?)
    && (m.against.Extract? ==>
          forall a, b :: a < b ==> m.against.Read(f.readable(a)).Raw() < m.against.Read(f.readable(b)).Raw())
    && (m.counter ==>
          forall a, b :: a <= b ==> m.extract.Read(f.readable(a)).Raw() <= m.extract.Read(f.readable(b)).Raw())
    && (forall at :: m.extract.Read(f.unreadable(at)) == Unknown)
  }

  ghost predicate FeedContract<S>(f: Feed<S>, s: Signal<S>) {
    forall k :: 0 <= k < |s.instruments| ==> Feeds(f, s.instruments[k])
  }

  ghost predicate AllDependable<S>(s: Signal<S>) {
    forall k :: 0 <= k < |s.instruments| ==> Dependable(s.instruments[k].measurement.reduction)
  }

  // ----- One instrument's series -----

  ghost function Series<S>(f: Feed<S>, env: Environment, d: int, ticks: seq<bool>, inst: Instrument<S>): seq<Sample> {
    SeriesOf(inst, StepsOf(f, env, d, ticks))
  }

  lemma TicksAdvance(d: int, i: nat, j: nat)
    requires d > 0 && i <= j
    ensures UNIX_EPOCH <= TickAt(d, i) <= TickAt(d, j)
    ensures i < j ==> TickAt(d, i) < TickAt(d, j)
    ensures TickAt(d, j) - TickAt(d, i) == (j - i) * d
  {
    assert j * d - i * d == (j - i) * d;
    assert i * d >= 0 && (j - i) * d >= 0;
  }

  /** The series a valid instrument is fed: one accepted sample per readable tick. */
  lemma SeriesFacts<S>(f: Feed<S>, env: Environment, d: int, ticks: seq<bool>, inst: Instrument<S>, demoteSpan: int)
    requires d > 0 && Feeds(f, inst) && (inst.measurement.reduction.divides ==> inst.measurement.against.Extract?)
    ensures var h := Series(f, env, d, ticks, inst);
            && |h| == |ticks| && Clocked(h)
            && (forall k :: 0 <= k < |h| ==> h[k].at == TickAt(d, k))
            && (forall k :: 0 <= k < |h| ==> (Accepted(inst.WindowConfig(demoteSpan), h[k]) <==> ticks[k]))
  {
    var h := Series(f, env, d, ticks, inst);
    forall i, j | 0 <= i < j < |h| ensures h[i].at <= h[j].at { TicksAdvance(d, i, j); }
    forall i | 0 <= i < |h| ensures h[i].at > ZERO_TIME { TicksAdvance(d, 0, i); }
    ClockedMeaning(h);
  }

  function AllPoints(h: seq<Sample>): (ps: seq<Point>)
    requires forall k :: 0 <= k < |h| ==> h[k].value.Known?
    ensures |ps| == |h|
  {
    seq(|h|, k requires 0 <= k < |h| => PointOf(h[k]))
  }

  ghost predicate AllAccepted(c: Config, h: seq<Sample>) {
    forall k :: 0 <= k < |h| ==> Accepted(c, h[k])
  }

  /** Uninterrupted samples: everything recent enough is kept. */
  lemma {:induction false} KeptUninterrupted(c: Config, h: seq<Sample>, cutoff: Instant)
    requires h != [] && Clocked(h) && AllAccepted(c, h)
    requires forall k :: 0 < k < |h| ==> !StartsOver(c, h[k - 1], h[k])
    ensures |Kept(c, h, cutoff)| <= |h|
    ensures cutoff <= h[0].at ==> Kept(c, h, cutoff) == AllPoints(h)
    ensures cutoff > h[0].at ==> |Kept(c, h, cutoff)| < |h|
  {
    var before, s := h[..|h| - 1], h[|h| - 1];
    if before == [] {
      assert Kept(c, before, cutoff) == [];
    } else {
      assert LastAccepted(c, before) == |before| - 1;
      KeptUninterrupted(c, before, cutoff);
      assert !StartsOver(c, h[|h| - 2], h[|h| - 1]);
      ClockedPrefix(h, 0);
      if cutoff <= h[0].at { assert AllPoints(h) == AllPoints(before) + [PointOf(s)]; }
    }
  }

  /** When the newest sample starts over, it is all there is. */
  lemma {:induction false} KeptAfterStart(c: Config, h: seq<Sample>, cutoff: Instant)
    requires h != [] && Accepted(c, h[|h| - 1]) && cutoff <= h[|h| - 1].at
    requires var j := LastAccepted(c, h[..|h| - 1]); j < 0 || StartsOver(c, h[j], h[|h| - 1])
    ensures Kept(c, h, cutoff) == [PointOf(h[|h| - 1])]
  {
    var before := h[..|h| - 1];
    if LastAccepted(c, before) < 0 { NothingYet(c, before, cutoff); }
  }

  // ----- What a window can say in each case -----

  /** The number a trusted window needs: `n` readings all within the span, none of them so far
      from the last that the window demoted. */
  predicate Fills<S>(inst: Instrument<S>, demoteSpan: int, d: int, n: int) {
    (n == 1 || d <= demoteSpan) && (n - 1) * d <= inst.measurement.span
  }

  ghost function StateAfter<S>(inst: Instrument<S>, demoteSpan: int, steps: seq<Step<S>>): State {
    Reduce(Run(inst.WindowConfig(demoteSpan), SeriesOf(inst, steps))).state
  }

  lemma {:induction false} NeverStartsOver<S>(f: Feed<S>, env: Environment, d: int, n: nat, inst: Instrument<S>, demoteSpan: int, k: nat)
    requires 0 < d <= demoteSpan && Feeds(f, inst) && ValidInstrument(inst, 0)
    requires 0 < k < n
    ensures var h, c := Series(f, env, d, Bools(n, true), inst), inst.WindowConfig(demoteSpan);
            Accepted(c, h[k - 1]) && Accepted(c, h[k]) && !StartsOver(c, h[k - 1], h[k])
  {
    SeriesFacts(f, env, d, Bools(n, true), inst, demoteSpan);
    TicksAdvance(d, k - 1, k);
    assert TickAt(d, k - 1) < TickAt(d, k);
  }

  /** `n` readable ticks, no more than the reduction needs. */
  lemma {:induction false} LiveState<S>(f: Feed<S>, env: Environment, d: int, n: nat, inst: Instrument<S>, demoteSpan: int)
    requires d > 0 && demoteSpan > 0 && Feeds(f, inst) && ValidInstrument(inst, 0)
    requires Dependable(inst.measurement.reduction) && 1 <= n <= inst.measurement.reduction.min
    ensures StateAfter(inst, demoteSpan, StepsOf(f, env, d, Bools(n, true))) ==
            if n == inst.measurement.reduction.min && Fills(inst, demoteSpan, d, n) then StateValue else StateUntrusted
  {
    var h := Series(f, env, d, Bools(n, true), inst);
    LivePoints(f, env, d, n, inst, demoteSpan);
    FedPointsAdvance(f, env, d, n, inst, demoteSpan);
    ReducedState(Run(inst.WindowConfig(demoteSpan), h));
  }

  /** What a window holds after `n` readable ticks: all of them, or fewer but not nothing. */
  lemma {:induction false} LivePoints<S>(f: Feed<S>, env: Environment, d: int, n: nat, inst: Instrument<S>, demoteSpan: int)
    requires d > 0 && demoteSpan > 0 && Feeds(f, inst) && ValidInstrument(inst, 0) && n >= 1
    ensures var h := Series(f, env, d, Bools(n, true), inst); var w := Run(inst.WindowConfig(demoteSpan), h);
            && (forall k :: 0 <= k < |h| ==> h[k].value.Known?)
            && w.cfg == inst.WindowConfig(demoteSpan) && w.lastAppendStored && w.points != []
            && (if Fills(inst, demoteSpan, d, n) then w.points == AllPoints(h) && |w.points| == n else |w.points| < n)
  {
    if n == 1 || d <= demoteSpan {
      LiveUninterrupted(f, env, d, n, inst, demoteSpan);
    } else {
      var h := Series(f, env, d, Bools(n, true), inst);
      SeriesFacts(f, env, d, Bools(n, true), inst, demoteSpan);
      TicksAdvance(d, n - 2, n - 1);
      RestartedContents(inst.WindowConfig(demoteSpan), h);
    }
  }

  lemma {:induction false} LiveUninterrupted<S>(f: Feed<S>, env: Environment, d: int, n: nat, inst: Instrument<S>, demoteSpan: int)
    requires d > 0 && demoteSpan > 0 && Feeds(f, inst) && ValidInstrument(inst, 0) && n >= 1
    requires n == 1 || d <= demoteSpan
    ensures var h := Series(f, env, d, Bools(n, true), inst); var w := Run(inst.WindowConfig(demoteSpan), h);
            && (forall k :: 0 <= k < |h| ==> h[k].value.Known?)
            && w.cfg == inst.WindowConfig(demoteSpan) && w.lastAppendStored && w.points != []
            && (if (n - 1) * d <= inst.measurement.span then w.points == AllPoints(h) && |w.points| == n else |w.points| < n)
  {
    var c, h := inst.WindowConfig(demoteSpan), Series(f, env, d, Bools(n, true), inst);
    SeriesFacts(f, env, d, Bools(n, true), inst, demoteSpan);
    forall k | 0 < k < |h| ensures !StartsOver(c, h[k - 1], h[k]) { NeverStartsOver(f, env, d, n, inst, demoteSpan, k); }
    UninterruptedContents(c, h);
    TicksAdvance(d, 0, n - 1);
    assert (n - 1) * d == h[|h| - 1].at - h[0].at;
  }

  lemma {:induction false} UninterruptedContents(c: Config, h: seq<Sample>)
    requires c.span > 0 && c.demoteSpan > 0 && Clocked(h) && h != [] && AllAccepted(c, h)
    requires forall k :: 0 < k < |h| ==> !StartsOver(c, h[k - 1], h[k])
    ensures Run(c, h).cfg == c && Run(c, h).lastAppendStored && Run(c, h).points != []
    ensures if h[|h| - 1].at - h[0].at <= c.span then Run(c, h).points == AllPoints(h) else |Run(c, h).points| < |h|
  {
    WindowRefinesHistory(c, h);
    var cutoff := h[|h| - 1].at - c.span;
    NewestKept(c, h, cutoff);
    KeptUninterrupted(c, h, cutoff);
  }

  lemma {:induction false} RestartedContents(c: Config, h: seq<Sample>)
    requires c.span > 0 && c.demoteSpan > 0 && Clocked(h) && |h| >= 2 && AllAccepted(c, h)
    requires h[|h| - 1].at - h[|h| - 2].at > c.demoteSpan
    ensures Run(c, h).cfg == c && Run(c, h).lastAppendStored && |Run(c, h).points| == 1
  {
    WindowRefinesHistory(c, h);
    assert LastAccepted(c, h[..|h| - 1]) == |h| - 2;
    KeptAfterStart(c, h, h[|h| - 1].at - c.span);
  }

  lemma FedPointsAdvance<S>(f: Feed<S>, env: Environment, d: int, n: nat, inst: Instrument<S>, demoteSpan: int)
    requires d > 0 && Feeds(f, inst) && ValidInstrument(inst, 0)
    ensures var h := Series(f, env, d, Bools(n, true), inst);
            (forall k :: 0 <= k < |h| ==> h[k].value.Known?)
            && StrictlyAdvancing(AllPoints(h), inst.measurement.reduction.divides)
  {
    var h := Series(f, env, d, Bools(n, true), inst);
    SeriesFacts(f, env, d, Bools(n, true), inst, demoteSpan);
    forall i, j | 0 <= i < j < |h|
      ensures AllPoints(h)[i].at < AllPoints(h)[j].at
      ensures inst.measurement.reduction.divides ==> AllPoints(h)[i].against.Raw() < AllPoints(h)[j].against.Raw()
    {
      TicksAdvance(d, i, j);
      assert TickAt(d, i) < TickAt(d, j);
    }
  }

  /** How `Reduce` grades a window whose reduction is dependable. */
  lemma ReducedState(w: Window)
    requires Dependable(w.cfg.reduction)
    ensures w.points == [] <==> Reduce(w).state == StateAbsent
    ensures |w.points| < w.cfg.reduction.min || !w.lastAppendStored ==> Reduce(w).state != StateValue
    ensures (&& |w.points| >= w.cfg.reduction.min && w.lastAppendStored
             && StrictlyAdvancing(w.points, w.cfg.reduction.divides))
            ==> Reduce(w).state == StateValue
  {
  }

  /** Accepted samples, then refused ones: what is left. */
  lemma {:induction false} OutageContents(c: Config, h: seq<Sample>, n: nat)
    requires c.span > 0 && c.demoteSpan > 0 && Clocked(h) && 1 <= n < |h|
    requires forall k :: 0 <= k < |h| ==> (Accepted(c, h[k]) <==> k < n)
    ensures Run(c, h).cfg == c && !Run(c, h).lastAppendStored
    ensures Run(c, h).points == [] <==> h[|h| - 1].at - h[n - 1].at > c.demoteSpan || h[n].at - h[n - 1].at > c.span
  {
    WindowRefinesHistory(c, h);
    LastOfMixed(c, h, n);
    ClockedPrefix(h, n - 1);
    KeptIgnoresRefused(c, h, n - 1, 0);
    NewestKept(c, h[..n], h[n].at - c.span);
  }

  /** And so what its state is. */
  lemma OutageReduced(c: Config, h: seq<Sample>, n: nat)
    requires Dependable(c.reduction) && c.span > 0 && c.demoteSpan > 0 && Clocked(h) && 1 <= n < |h|
    requires forall k :: 0 <= k < |h| ==> (Accepted(c, h[k]) <==> k < n)
    ensures Reduce(Run(c, h)).state ==
            if h[|h| - 1].at - h[n - 1].at > c.demoteSpan || h[n].at - h[n - 1].at > c.span then StateAbsent else StateUntrusted
  {
    OutageContents(c, h, n);
    ReducedState(Run(c, h));
  }

  /** `n` readable ticks, then `u` unreadable ones. */
  lemma {:induction false} OutageState<S>(
    f: Feed<S>, env: Environment, d: int, n: nat, u: nat, inst: Instrument<S>, demoteSpan: int)
    requires d > 0 && demoteSpan > 0 && Feeds(f, inst) && ValidInstrument(inst, 0)
    requires Dependable(inst.measurement.reduction) && n >= 1 && u >= 1
    ensures StateAfter(inst, demoteSpan, StepsOf(f, env, d, Bools(n, true) + Bools(u, false))) ==
            if u * d > demoteSpan || d > inst.measurement.span then StateAbsent else StateUntrusted
  {
    var ticks, c := Bools(n, true) + Bools(u, false), inst.WindowConfig(demoteSpan);
    var h := Series(f, env, d, ticks, inst);
    SeriesFacts(f, env, d, ticks, inst, demoteSpan);
    OutageGap(d, n, u);
    OutageReduced(c, h, n);
  }

  lemma OutageGap(d: int, n: nat, u: nat)
    requires d > 0 && n >= 1 && u >= 1
    ensures TickAt(d, n + u - 1) - TickAt(d, n - 1) == u * d && TickAt(d, n) - TickAt(d, n - 1) == d
    ensures var ticks := Bools(n, true) + Bools(u, false);
            |ticks| == n + u && forall k :: 0 <= k < |ticks| ==> (ticks[k] <==> k < n)
  {
    TicksAdvance(d, n - 1, n + u - 1);
    TicksAdvance(d, n - 1, n);
  }

  /** Samples after which the last one starts over. */
  lemma {:induction false} DipContents(c: Config, h: seq<Sample>, n: nat)
    requires c.span > 0 && c.demoteSpan > 0 && Clocked(h) && 1 <= n < |h|
    requires forall k :: 0 <= k < |h| ==> (Accepted(c, h[k]) <==> k < n || k == |h| - 1)
    requires h[|h| - 1].at - h[n - 1].at > c.demoteSpan
    ensures Run(c, h).cfg == c && Run(c, h).lastAppendStored
    ensures Run(c, h).points == [PointOf(h[|h| - 1])]
  {
    WindowRefinesHistory(c, h);
    var z := |h| - 1;
    LastOfMixed(c, h[..z], n);
    KeptAfterStart(c, h, h[z].at - c.span);
  }

  lemma LastOfMixed(c: Config, h: seq<Sample>, n: nat)
    requires 1 <= n <= |h| && forall k :: 0 <= k < |h| ==> (Accepted(c, h[k]) <==> k < n)
    ensures LastAccepted(c, h) == n - 1
  {
    assert Accepted(c, h[n - 1]);
  }

  /** A long outage, then one readable tick. */
  lemma {:induction false} DipState<S>(
    f: Feed<S>, env: Environment, d: int, n: nat, u: nat, inst: Instrument<S>, demoteSpan: int)
    requires d > 0 && demoteSpan > 0 && Feeds(f, inst) && ValidInstrument(inst, 0)
    requires Dependable(inst.measurement.reduction) && n >= 1 && u * d > demoteSpan
    ensures StateAfter(inst, demoteSpan, StepsOf(f, env, d, Bools(n, true) + Bools(u, false) + [true])) ==
            if inst.measurement.reduction.min == 1 then StateValue else StateUntrusted
  {
    var ticks, c := Bools(n, true) + Bools(u, false) + [true], inst.WindowConfig(demoteSpan);
    var h := Series(f, env, d, ticks, inst);
    SeriesFacts(f, env, d, ticks, inst, demoteSpan);
    DipGap(d, n, u);
    DipContents(c, h, n);
    ReducedState(Run(c, h));
  }

  lemma DipGap(d: int, n: nat, u: nat)
    requires d > 0 && n >= 1
    ensures TickAt(d, n + u) - TickAt(d, n - 1) > u * d
    ensures var ticks := Bools(n, true) + Bools(u, false) + [true];
            |ticks| == n + u + 1 && forall k :: 0 <= k < |ticks| ==> (ticks[k] <==> k < n || k == n + u)
  {
    TicksAdvance(d, n - 1, n + u);
    assert (u + 1) * d == u * d + d;
  }

  /** A single unreadable tick on a fresh engine. */
  lemma NothingState<S>(f: Feed<S>, env: Environment, d: int, inst: Instrument<S>, demoteSpan: int)
    requires d > 0 && demoteSpan > 0 && Feeds(f, inst) && ValidInstrument(inst, 0)
    ensures StateAfter(inst, demoteSpan, StepsOf(f, env, d, [false])) == StateAbsent
  {
    var h, c := Series(f, env, d, [false], inst), inst.WindowConfig(demoteSpan);
    SeriesFacts(f, env, d, [false], inst, demoteSpan);
    WindowRefinesHistory(c, h);
  }

  // ----- From windows to a signal's availability -----

  /** Some instrument the environment satisfies is in state `st` after the steps. */
  ghost predicate SomeCapable<S>(s: Signal<S>, env: Environment, steps: seq<Step<S>>, st: State) {
    exists k :: 0 <= k < |s.instruments| && Capable(s.instruments[k], env)
                && StateAfter(s.instruments[k], s.demoteSpan, steps) == st
  }

  ghost predicate NoneCapable<S>(s: Signal<S>, env: Environment) {
    forall k :: 0 <= k < |s.instruments| ==> !Capable(s.instruments[k], env)
  }

  lemma {:induction false} CapableMembers<S>(insts: seq<Instrument<S>>, env: Environment, inst: Instrument<S>)
    ensures inst in CapableOf(insts, env) <==> inst in insts && Capable(inst, env)
  {
    if insts != [] {
      CapableMembers(insts[1..], env, inst);
      assert insts == [insts[0]] + insts[1..];
    }
  }

  /** The availability of a signal is the maximum state over the windows of its capable instruments. */
  lemma AvailabilityIsMaximum<S>(s: Signal<S>, steps: seq<Step<S>>, env: Environment)
    requires DistinctInstruments(s.instruments)
    ensures OwnAnswer(NodeAt(Place(s.name, s, 0)), steps, env).Availability() ==
            if SomeCapable(s, env, steps, StateValue) then Ready
            else if SomeCapable(s, env, steps, StateUntrusted) then NoneReady
            else if NoneCapable(s, env) then NoInstrument
            else AllAbsent
  {
    var n := NodeAt(Place(s.name, s, 0));
    var ws := OwnWindows(n.path, n.instruments, n.demoteSpan, steps);
    var capable := CapableOf(s.instruments, env);
    forall st: State ensures AnyHas(ws, n.path, capable, st) <==> SomeCapable(s, env, steps, st) {
      StatesAgree(s, steps, env, st);
    }
    forall inst ensures inst in capable <==> inst in s.instruments && Capable(inst, env) {
      CapableMembers(s.instruments, env, inst);
    }
    assert AnyHas(ws, n.path, capable, StateValue) <==> FirstReady(ws, n.path, capable) < |capable|;
    if !NoneCapable(s, env) {
      var k :| 0 <= k < |s.instruments| && Capable(s.instruments[k], env);
      var st := StateAfter(s.instruments[k], s.demoteSpan, steps);
      assert SomeCapable(s, env, steps, st);
    }
  }

  lemma StatesAgree<S>(s: Signal<S>, steps: seq<Step<S>>, env: Environment, st: State)
    requires DistinctInstruments(s.instruments)
    ensures AnyHas(OwnWindows(s.name, s.instruments, s.demoteSpan, steps), s.name, CapableOf(s.instruments, env), st)
            <==> SomeCapable(s, env, steps, st)
  {
    var ws, capable := OwnWindows(s.name, s.instruments, s.demoteSpan, steps), CapableOf(s.instruments, env);
    if AnyHas(ws, s.name, capable, st) {
      var i :| 0 <= i < |capable| && HasState(ws, s.name, capable[i], st);
      CapableMembers(s.instruments, env, capable[i]);
      var k :| 0 <= k < |s.instruments| && s.instruments[k] == capable[i];
      StateIsOwn(s, steps, st, k);
    }
    if SomeCapable(s, env, steps, st) {
      var k :| 0 <= k < |s.instruments| && Capable(s.instruments[k], env)
               && StateAfter(s.instruments[k], s.demoteSpan, steps) == st;
      CapableMembers(s.instruments, env, s.instruments[k]);
      var i :| 0 <= i < |capable| && capable[i] == s.instruments[k];
      StateIsOwn(s, steps, st, k);
    }
  }

  lemma StateIsOwn<S>(s: Signal<S>, steps: seq<Step<S>>, st: State, k: nat)
    requires DistinctInstruments(s.instruments) && k < |s.instruments|
    ensures HasState(OwnWindows(s.name, s.instruments, s.demoteSpan, steps), s.name, s.instruments[k], st)
            <==> StateAfter(s.instruments[k], s.demoteSpan, steps) == st
  {
    OwnWindowAt(s.name, s.instruments, s.demoteSpan, steps, k);
  }

  /** The first row of the engine that runs the signal alone. */
  lemma FirstRowIsOwn<S(00,!new)>(s: Signal<S>, interval: int, steps: seq<Step<S>>, env: Environment)
    requires ValidSignal(s, interval)
    ensures FirstRow(RunEngine(NewState(Alone(s, interval)), steps), env)
            == OwnAnswer(NodeAt(Place(s.name, s, 0)), steps, env).Availability()
  {
    var t := Alone(s, interval);
    AloneIsValid(s, interval);
    StartIsWellKeyed(t);
    EngineFollowsEachSignal(t, steps);
    RowFollows(RunEngine(NewState(t), steps), StartOf(t), steps, env, 0);
  }

  /** So that row is the maximum state over the capable instruments' windows. */
  lemma FirstRowIsMaximum<S(00,!new)>(s: Signal<S>, interval: int, steps: seq<Step<S>>, env: Environment)
    requires ValidSignal(s, interval)
    ensures FirstRow(RunEngine(NewState(Alone(s, interval)), steps), env) ==
            if SomeCapable(s, env, steps, StateValue) then Ready
            else if SomeCapable(s, env, steps, StateUntrusted) then NoneReady
            else if NoneCapable(s, env) then NoInstrument
            else AllAbsent
  {
    FirstRowIsOwn(s, interval, steps, env);
    AvailabilityIsMaximum(s, steps, env);
  }

  // ----- m, and the tick counts -----

  lemma {:induction false} SmallestMinFacts<S>(insts: seq<Instrument<S>>)
    requires forall k :: 0 <= k < |insts| ==> insts[k].measurement.reduction.min >= 1
    ensures SmallestMin(insts) == 0 <==> insts == []
    ensures forall k :: 0 <= k < |insts| ==> SmallestMin(insts) <= insts[k].measurement.reduction.min
    ensures insts != [] ==> exists k :: 0 <= k < |insts| && SmallestMin(insts) == insts[k].measurement.reduction.min
  {
    if insts != [] {
      var before := insts[..|insts| - 1];
      SmallestMinFacts(before);
      if SmallestMin(insts) != insts[|insts| - 1].measurement.reduction.min {
        var k :| 0 <= k < |before| && SmallestMin(before) == before[k].measurement.reduction.min;
        assert before[k] == insts[k];
      }
    }
  }

  /** `m` is the smallest minimum among the capable instruments, and one of them attains it. */
  lemma MinimumFacts<S>(s: Signal<S>, env: Environment, interval: int)
    requires ValidSignal(s, interval) && !NoneCapable(s, env)
    ensures MinCapableMin(s, env) >= 1
    ensures forall k :: 0 <= k < |s.instruments| && Capable(s.instruments[k], env) ==>
              MinCapableMin(s, env) <= s.instruments[k].measurement.reduction.min
    ensures exists k :: 0 <= k < |s.instruments| && Capable(s.instruments[k], env)
                        && MinCapableMin(s, env) == s.instruments[k].measurement.reduction.min
  {
    var capable := CapableOf(s.instruments, env);
    forall inst ensures inst in capable <==> inst in s.instruments && Capable(inst, env) {
      CapableMembers(s.instruments, env, inst);
    }
    var a :| 0 <= a < |s.instruments| && Capable(s.instruments[a], env);
    assert s.instruments[a] in capable;
    forall k | 0 <= k < |capable| ensures capable[k].measurement.reduction.min >= 1 {
      CapableMembers(s.instruments, env, capable[k]);
    }
    SmallestMinFacts(capable);
    forall k | 0 <= k < |s.instruments| && Capable(s.instruments[k], env)
      ensures MinCapableMin(s, env) <= s.instruments[k].measurement.reduction.min
    {
      assert s.instruments[k] in capable;
    }
    var c :| 0 <= c < |capable| && SmallestMin(capable) == capable[c].measurement.reduction.min;
    CapableMembers(s.instruments, env, capable[c]);
    var k :| 0 <= k < |s.instruments| && s.instruments[k] == capable[c];
    assert Capable(s.instruments[k], env);
  }

  lemma DemoteTickFacts(demoteSpan: int, d: int)
    requires d > 0 && demoteSpan > 0
    ensures var n := DemoteTicks(demoteSpan, d); var u := if n - 1 > 1 then n - 1 else 1;
            && n >= 1
            && (n + 1) * d > demoteSpan
            && (u * d > demoteSpan <==> d > demoteSpan)
  {
    var q, n := demoteSpan / d, DemoteTicks(demoteSpan, d);
    var u := if n - 1 > 1 then n - 1 else 1;
    assert q * d <= demoteSpan < (q + 1) * d;
    if d > demoteSpan {
      assert q == 0;
    } else {
      assert q >= 1;
      assert (q - u) * d >= 0;
      assert (q - u) * d == q * d - u * d;
    }
  }

  // ----- The table -----

  /** Some instrument the environment satisfies needs just `m` readings and gets them in `m` ticks. */
  ghost predicate SomeFills<S>(s: Signal<S>, env: Environment, d: int, m: int) {
    exists k :: 0 <= k < |s.instruments| && Capable(s.instruments[k], env)
                && s.instruments[k].measurement.reduction.min == m && Fills(s.instruments[k], s.demoteSpan, d, m)
  }

  /** Some instrument the environment satisfies still holds a reading one tick later. */
  ghost predicate SomeOutlastsTick<S>(s: Signal<S>, env: Environment, d: int) {
    d <= s.demoteSpan && SomeSpansTick(s, env, d)
  }

  ghost predicate SomeSpansTick<S>(s: Signal<S>, env: Environment, d: int) {
    exists k :: 0 <= k < |s.instruments| && Capable(s.instruments[k], env) && d <= s.instruments[k].measurement.span
  }

  /** The availability each case ends in, from the declarations alone. `d` is the interval driven at. */
  ghost function OutcomeRow<S>(s: Signal<S>, c: Case, env: Environment, d: int): Availability {
    var m, driven := MinCapableMin(s, env), DriveEnvironment(c, env);
    if NoneCapable(s, driven) then NoInstrument
    else match c
      case CaseLive => if SomeFills(s, env, d, m) then Ready else NoneReady
      case CaseBriefOutage => if SomeOutlastsTick(s, env, d) then NoneReady else AllAbsent
      case CaseLongOutage => AllAbsent
      case CaseUnsupported => if SomeFills(s, {}, d, m) then Ready else NoneReady
      case CasePostOutageDip => if m == 1 then Ready else NoneReady
      case CaseBelowFloor => if m == 1 then AllAbsent else NoneReady
  }

  ghost predicate Prepared<S>(t: Table<S>, s: Signal<S>, f: Feed<S>) {
    ValidSignal(s, t.interval) && FeedContract(f, s) && AllDependable(s)
  }

  /** An instrument valid under some interval is valid without one. */
  lemma ValidAnyway<S>(t: Table<S>, s: Signal<S>, f: Feed<S>, k: nat)
    requires Prepared(t, s, f) && k < |s.instruments|
    ensures ValidInstrument(s.instruments[k], 0) && Feeds(f, s.instruments[k])
    ensures Dependable(s.instruments[k].measurement.reduction) && s.demoteSpan > 0
  {
  }

  lemma LiveRow<S(00,!new)>(t: Table<S>, s: Signal<S>, driven: Environment, f: Feed<S>, m: nat, d: int)
    requires Prepared(t, s, f) && d > 0 && m >= 1
    requires forall k :: 0 <= k < |s.instruments| && Capable(s.instruments[k], driven) ==>
               m <= s.instruments[k].measurement.reduction.min
    ensures FirstRow(RunEngine(NewState(Alone(s, t.interval)), StepsOf(f, driven, d, Bools(m, true))), driven) ==
            if NoneCapable(s, driven) then NoInstrument else if SomeFills(s, driven, d, m) then Ready else NoneReady
  {
    var steps := StepsOf(f, driven, d, Bools(m, true));
    FirstRowIsMaximum(s, t.interval, steps, driven);
    forall k | 0 <= k < |s.instruments| && Capable(s.instruments[k], driven)
      ensures StateAfter(s.instruments[k], s.demoteSpan, steps) ==
              if m == s.instruments[k].measurement.reduction.min && Fills(s.instruments[k], s.demoteSpan, d, m)
              then StateValue else StateUntrusted
    {
      ValidAnyway(t, s, f, k);
      LiveState(f, driven, d, m, s.instruments[k], s.demoteSpan);
    }
    assert SomeCapable(s, driven, steps, StateValue) <==> SomeFills(s, driven, d, m);
  }

  /** `silence` is how long the `u` unreadable ticks last. */
  lemma OutageRow<S(00,!new)>(
    t: Table<S>, s: Signal<S>, env: Environment, f: Feed<S>, m: nat, u: nat, d: int, silence: int)
    requires Prepared(t, s, f) && d > 0 && m >= 1 && u >= 1 && silence == u * d
    ensures FirstRow(RunEngine(NewState(Alone(s, t.interval)), StepsOf(f, env, d, Bools(m, true) + Bools(u, false))), env) ==
            if NoneCapable(s, env) then NoInstrument
            else if silence <= s.demoteSpan && SomeSpansTick(s, env, d) then NoneReady
            else AllAbsent
  {
    var steps := StepsOf(f, env, d, Bools(m, true) + Bools(u, false));
    FirstRowIsMaximum(s, t.interval, steps, env);
    forall k | 0 <= k < |s.instruments|
      ensures StateAfter(s.instruments[k], s.demoteSpan, steps) ==
              if silence > s.demoteSpan || d > s.instruments[k].measurement.span then StateAbsent else StateUntrusted
    {
      ValidAnyway(t, s, f, k);
      OutageState(f, env, d, m, u, s.instruments[k], s.demoteSpan);
    }
  }

  lemma DipRow<S(00,!new)>(t: Table<S>, s: Signal<S>, env: Environment, f: Feed<S>, m: nat, u: nat, d: int)
    requires Prepared(t, s, f) && d > 0 && m >= 1 && u * d > s.demoteSpan && !NoneCapable(s, env)
    requires m == MinCapableMin(s, env)
    ensures FirstRow(RunEngine(NewState(Alone(s, t.interval)),
                               StepsOf(f, env, d, Bools(m, true) + Bools(u, false) + [true])), env) ==
            if m == 1 then Ready else NoneReady
  {
    var steps := StepsOf(f, env, d, Bools(m, true) + Bools(u, false) + [true]);
    forall k | 0 <= k < |s.instruments|
      ensures StateAfter(s.instruments[k], s.demoteSpan, steps) ==
              if s.instruments[k].measurement.reduction.min == 1 then StateValue else StateUntrusted
    {
      ValidAnyway(t, s, f, k);
      DipState(f, env, d, m, u, s.instruments[k], s.demoteSpan);
    }
    DipAvailability(t, s, env, steps, m);
  }

  lemma DipAvailability<S(00,!new)>(t: Table<S>, s: Signal<S>, env: Environment, steps: seq<Step<S>>, m: nat)
    requires ValidSignal(s, t.interval) && !NoneCapable(s, env) && m == MinCapableMin(s, env)
    requires forall k :: 0 <= k < |s.instruments| ==>
               StateAfter(s.instruments[k], s.demoteSpan, steps) ==
               if s.instruments[k].measurement.reduction.min == 1 then StateValue else StateUntrusted
    ensures FirstRow(RunEngine(NewState(Alone(s, t.interval)), steps), env) == if m == 1 then Ready else NoneReady
  {
    FirstRowIsMaximum(s, t.interval, steps, env);
    MinimumFacts(s, env, t.interval);
    var k :| 0 <= k < |s.instruments| && Capable(s.instruments[k], env)
             && MinCapableMin(s, env) == s.instruments[k].measurement.reduction.min;
  }

  lemma NothingRow<S(00,!new)>(t: Table<S>, s: Signal<S>, env: Environment, f: Feed<S>, d: int)
    requires Prepared(t, s, f) && d > 0
    ensures FirstRow(RunEngine(NewState(Alone(s, t.interval)), StepsOf(f, env, d, [false])), env) ==
            if NoneCapable(s, env) then NoInstrument else AllAbsent
  {
    var steps := StepsOf(f, env, d, [false]);
    FirstRowIsMaximum(s, t.interval, steps, env);
    forall k | 0 <= k < |s.instruments| ensures StateAfter(s.instruments[k], s.demoteSpan, steps) == StateAbsent {
      ValidAnyway(t, s, f, k);
      NothingState(f, env, d, s.instruments[k], s.demoteSpan);
    }
  }

  /** No capable instrument: whatever is driven, there is nothing to read. */
  lemma NoInstrumentRow<S(00,!new)>(s: Signal<S>, interval: int, steps: seq<Step<S>>, env: Environment)
    requires ValidSignal(s, interval) && NoneCapable(s, env)
    ensures FirstRow(RunEngine(NewState(Alone(s, interval)), steps), env) == NoInstrument
  {
    FirstRowIsMaximum(s, interval, steps, env);
  }

  /** The outcome table, exactly: for every table whose signal is valid, every environment and
      every feed that keeps its contract, each of the six sequences ends in the availability the
      declarations prescribe. Nothing is assumed about the interval. */
  lemma OutcomeTable<S(00,!new)>(t: Table<S>, s: Signal<S>, c: Case, env: Environment, f: Feed<S>)
    requires Prepared(t, s, f)
    ensures ScenarioOutcome(t, s, c, env, f) == OutcomeRow(s, c, env, EffectiveInterval(t.interval))
  {
    var d, m, driven := EffectiveInterval(t.interval), MinCapableMin(s, env), DriveEnvironment(c, env);
    if NoneCapable(s, driven) {
      var ticks := Driven(Sequence(c, m, DemoteTicks(s.demoteSpan, d)));
      NoInstrumentRow(s, t.interval, StepsOf(f, driven, d, ticks), driven);
    } else {
      FewerAreCapable(s, env);
      MinimumFacts(s, env, t.interval);
      match c {
        case CaseLive => LiveRow(t, s, env, f, m, d);
        case CaseBriefOutage => BriefOutageRow(t, s, env, f);
        case CaseLongOutage => LongOutageRow(t, s, env, f);
        case CaseUnsupported => LiveRow(t, s, {}, f, m, d);
        case CasePostOutageDip => PostOutageDipRow(t, s, env, f);
        case CaseBelowFloor => BelowFloorRow(t, s, env, f);
      }
    }
  }

  lemma BriefOutageRow<S(00,!new)>(t: Table<S>, s: Signal<S>, env: Environment, f: Feed<S>)
    requires Prepared(t, s, f) && !NoneCapable(s, env)
    ensures ScenarioOutcome(t, s, CaseBriefOutage, env, f) == OutcomeRow(s, CaseBriefOutage, env, EffectiveInterval(t.interval))
  {
    var d, m := EffectiveInterval(t.interval), MinCapableMin(s, env);
    MinimumAtLeastOne(s, env, t.interval);
    var u, silence := BriefOutageDriven(t, s, env, f, m, d);
    OutageRow(t, s, env, f, m, u, d, silence);
  }

  lemma MinimumAtLeastOne<S>(s: Signal<S>, env: Environment, interval: int)
    requires ValidSignal(s, interval) && !NoneCapable(s, env)
    ensures MinCapableMin(s, env) >= 1
  {
    MinimumFacts(s, env, interval);
  }

  lemma BriefOutageDriven<S>(t: Table<S>, s: Signal<S>, env: Environment, f: Feed<S>, m: nat, d: int)
    returns (u: nat, silence: int)
    requires m == MinCapableMin(s, env) >= 1 && d == EffectiveInterval(t.interval) > 0 && s.demoteSpan > 0
    ensures u >= 1 && silence == u * d && (silence > s.demoteSpan <==> d > s.demoteSpan)
    ensures ScenarioOutcome(t, s, CaseBriefOutage, env, f)
            == FirstRow(RunEngine(NewState(Alone(s, t.interval)), StepsOf(f, env, d, Bools(m, true) + Bools(u, false))), env)
  {
    var n := DemoteTicks(s.demoteSpan, d);
    u := if n - 1 > 1 then n - 1 else 1;
    silence := u * d;
    DemoteTickFacts(s.demoteSpan, d);
    BriefOutageTicks(m, n);
  }

  lemma BriefOutageTicks(m: int, n: int)
    requires m >= 1
    ensures Driven(Sequence(CaseBriefOutage, m, n)) == Bools(m, true) + Bools(if n - 1 > 1 then n - 1 else 1, false)
  {
  }

  lemma LongOutageRow<S(00,!new)>(t: Table<S>, s: Signal<S>, env: Environment, f: Feed<S>)
    requires Prepared(t, s, f) && !NoneCapable(s, env)
    ensures ScenarioOutcome(t, s, CaseLongOutage, env, f) == AllAbsent
  {
    var d, m := EffectiveInterval(t.interval), MinCapableMin(s, env);
    DemoteTickFacts(s.demoteSpan, d);
    MinimumAtLeastOne(s, env, t.interval);
    OutageRow(t, s, env, f, m, DemoteTicks(s.demoteSpan, d) + 1, d, (DemoteTicks(s.demoteSpan, d) + 1) * d);
  }

  lemma PostOutageDipRow<S(00,!new)>(t: Table<S>, s: Signal<S>, env: Environment, f: Feed<S>)
    requires Prepared(t, s, f) && !NoneCapable(s, env)
    ensures ScenarioOutcome(t, s, CasePostOutageDip, env, f) == if MinCapableMin(s, env) == 1 then Ready else NoneReady
  {
    var d, m := EffectiveInterval(t.interval), MinCapableMin(s, env);
    DemoteTickFacts(s.demoteSpan, d);
    MinimumFacts(s, env, t.interval);
    DipRow(t, s, env, f, m, DemoteTicks(s.demoteSpan, d) + 1, d);
  }

  lemma BelowFloorRow<S(00,!new)>(t: Table<S>, s: Signal<S>, env: Environment, f: Feed<S>)
    requires Prepared(t, s, f) && !NoneCapable(s, env)
    ensures ScenarioOutcome(t, s, CaseBelowFloor, env, f) == if MinCapableMin(s, env) == 1 then AllAbsent else NoneReady
  {
    if MinCapableMin(s, env) == 1 {
      NoReadableTick(t, s, env, f);
    } else {
      TooFewReadableTicks(t, s, env, f);
    }
  }

  lemma NoReadableTick<S(00,!new)>(t: Table<S>, s: Signal<S>, env: Environment, f: Feed<S>)
    requires Prepared(t, s, f) && !NoneCapable(s, env) && MinCapableMin(s, env) == 1
    ensures ScenarioOutcome(t, s, CaseBelowFloor, env, f) == AllAbsent
  {
    var d := EffectiveInterval(t.interval);
    BelowFloorTicks(MinCapableMin(s, env), DemoteTicks(s.demoteSpan, d));
    NothingRow(t, s, env, f, d);
  }

  lemma TooFewReadableTicks<S(00,!new)>(t: Table<S>, s: Signal<S>, env: Environment, f: Feed<S>)
    requires Prepared(t, s, f) && !NoneCapable(s, env) && MinCapableMin(s, env) != 1
    ensures ScenarioOutcome(t, s, CaseBelowFloor, env, f) == NoneReady
  {
    var d, m := EffectiveInterval(t.interval), MinCapableMin(s, env);
    MinimumFacts(s, env, t.interval);
    BelowFloorTicks(m, DemoteTicks(s.demoteSpan, d));
    BelowMinimumRow(t, s, env, f, m - 1, d);
  }

  lemma BelowFloorTicks(m: int, n: int)
    requires m >= 1
    ensures Driven(Sequence(CaseBelowFloor, m, n)) == if m == 1 then [false] else Bools(m - 1, true)
  {
  }

  lemma BelowMinimumRow<S(00,!new)>(t: Table<S>, s: Signal<S>, env: Environment, f: Feed<S>, m: nat, d: int)
    requires Prepared(t, s, f) && d > 0 && m >= 1 && !NoneCapable(s, env)
    requires forall k :: 0 <= k < |s.instruments| && Capable(s.instruments[k], env) ==>
               m < s.instruments[k].measurement.reduction.min
    ensures FirstRow(RunEngine(NewState(Alone(s, t.interval)), StepsOf(f, env, d, Bools(m, true))), env) == NoneReady
  {
    LiveRow(t, s, env, f, m, d);
  }

  lemma FewerAreCapable<S>(s: Signal<S>, env: Environment)
    ensures forall k :: 0 <= k < |s.instruments| && Capable(s.instruments[k], {}) ==> Capable(s.instruments[k], env)
    ensures NoneCapable(s, env) ==> NoneCapable(s, {})
  {
  }

  // ----- What the documentation says of it -----

  /** Some instrument needs no capability and, where `m` is given, needs just `m` readings. */
  ghost predicate SomeFree<S>(s: Signal<S>) {
    exists k :: 0 <= k < |s.instruments| && s.instruments[k].measurement.needs == []
  }

  ghost predicate SomeFreeMinimal<S>(s: Signal<S>, m: int) {
    exists k :: 0 <= k < |s.instruments| && s.instruments[k].measurement.needs == []
                && s.instruments[k].measurement.reduction.min == m
  }

  /** The documented rows, with the starred exceptions. */
  ghost function DocumentedRow<S>(s: Signal<S>, c: Case, env: Environment): Availability {
    var m := MinCapableMin(s, env);
    match c
    case CaseLive => Ready
    case CaseBriefOutage => NoneReady
    case CaseLongOutage => AllAbsent
    case CaseUnsupported => if !SomeFree(s) then NoInstrument else if SomeFreeMinimal(s, m) then Ready else NoneReady
    case CasePostOutageDip => if m == 1 then Ready else NoneReady
    case CaseBelowFloor => if m == 1 then AllAbsent else NoneReady
  }

  /** The documented table holds for a table that sets an interval, with built-in reductions over
      spans of at least that interval, and a signal some instrument of which is capable. */
  lemma DocumentedTable<S(00,!new)>(t: Table<S>, i: nat, c: Case, env: Environment, f: Feed<S>)
    requires t.interval > 0 && ValidTable(t) && i < |t.signals|
    requires var s := t.signals[i];
             && FeedContract(f, s) && !NoneCapable(s, env)
             && forall k :: 0 <= k < |s.instruments| ==>
                  BuiltIn(s.instruments[k].measurement.reduction) && s.instruments[k].measurement.span >= t.interval
    ensures ScenarioOutcome(t, t.signals[i], c, env, f) == DocumentedRow(t.signals[i], c, env)
  {
    var s := t.signals[i];
    forall k | 0 <= k < |s.instruments| ensures Dependable(s.instruments[k].measurement.reduction) {
      BuiltInIsDependable(s.instruments[k].measurement.reduction);
    }
    OutcomeTable(t, s, c, env, f);
    RowsAreDocumented(s, c, env, t.interval);
  }

  lemma RowsAreDocumented<S>(s: Signal<S>, c: Case, env: Environment, d: int)
    requires d > 0 && ValidSignal(s, d) && !NoneCapable(s, env)
    requires forall k :: 0 <= k < |s.instruments| ==> s.instruments[k].measurement.span >= d
    ensures OutcomeRow(s, c, env, d) == DocumentedRow(s, c, env)
  {
    var m := MinCapableMin(s, env);
    MinimumFacts(s, env, d);
    if c == CaseLive {
      MinimalFills(s, env, d, m);
    } else if c == CaseUnsupported {
      FreeIsCapable(s);
      MinimalFills(s, {}, d, m);
    }
  }

  /** With a set interval, needing just `m` readings is getting them in `m` ticks. */
  lemma MinimalFills<S>(s: Signal<S>, env: Environment, d: int, m: int)
    requires d > 0 && ValidSignal(s, d)
    ensures SomeFills(s, env, d, m) <==>
            exists k :: 0 <= k < |s.instruments| && Capable(s.instruments[k], env)
                        && s.instruments[k].measurement.reduction.min == m
  {
    forall k | 0 <= k < |s.instruments| && s.instruments[k].measurement.reduction.min == m
      ensures Fills(s.instruments[k], s.demoteSpan, d, m)
    {
      assert ValidInstrument(s.instruments[k], d);
      MinimumFitsSpan(s.instruments[k].measurement.span, d, m);
    }
  }

  lemma FreeIsCapable<S>(s: Signal<S>)
    ensures forall k :: 0 <= k < |s.instruments| ==>
              (Capable(s.instruments[k], {}) <==> s.instruments[k].measurement.needs == [])
  {
    forall k | 0 <= k < |s.instruments|
      ensures Capable(s.instruments[k], {}) <==> s.instruments[k].measurement.needs == []
    {
      var needs := s.instruments[k].measurement.needs;
      if needs != [] { assert needs[0] in needs && needs[0] !in {}; }
    }
  }

  lemma MinimumFitsSpan(span: int, d: int, m: int)
    requires d > 0 && span > 0 && span / d + 1 >= m
    ensures (m - 1) * d <= span
  {
    var q := span / d;
    assert q * d <= span;
    assert (q - (m - 1)) * d >= 0;
    assert (q - (m - 1)) * d == q * d - (m - 1) * d;
  }

  /** A p99 over ten seconds, in a table that sets no interval and so is driven every second. */
  function TenSecondP99(): Signal<Reading> {
    var marks := Marks("", Mark(2.0, true), Mark(1.0, true), HigherIsWorse, 3.0);
    var m := Measurement("p99", Extract((x: Reading) => x), Nil, [], P99, 10 * SECOND, false, false);
    Signal("s", [Instrument(m, marks)], [], 10 * SECOND, 0, 0, false)
  }

  function PlainFeed(): Feed<Reading> {
    Feed((at: Instant) => Known(at as real), (at: Instant) => Unknown)
  }

  /** The documentation asks only for spans at least the interval driven at. Without a set interval
      nothing makes a minimum sample count fit its span, and the first row then fails: this table
      is valid, its window never sees a hundred readings, and the live case ends in NoneReady.
      By `OutcomeTable`, the live row is Ready exactly when some capable instrument with the
      smallest minimum fits it: `SomeFills`. */
  lemma UnsetIntervalBreaksLive() returns (s: Signal<Reading>, t: Table<Reading>)
    ensures s == TenSecondP99() && t == Table([s], [], 0)
    ensures ValidTable(t) && !NoneCapable(s, {}) && FeedContract(PlainFeed(), s)
    ensures BuiltIn(s.instruments[0].measurement.reduction)
    ensures s.instruments[0].measurement.span >= EffectiveInterval(0) && s.demoteSpan >= EffectiveInterval(0)
    ensures ScenarioOutcome(t, s, CaseLive, {}, PlainFeed()) == NoneReady
  {
    s, t := TenSecondP99(), Alone(TenSecondP99(), 0);
    TenSecondP99Facts(s);
    AloneIsValid(s, 0);
    LiveNeedsAFill(t, s, {}, PlainFeed());
  }

  lemma LiveNeedsAFill<S(00,!new)>(t: Table<S>, s: Signal<S>, env: Environment, f: Feed<S>)
    requires Prepared(t, s, f) && !NoneCapable(s, env)
    requires !SomeFills(s, env, EffectiveInterval(t.interval), MinCapableMin(s, env))
    ensures ScenarioOutcome(t, s, CaseLive, env, f) == NoneReady
  {
    OutcomeTable(t, s, CaseLive, env, f);
  }

  lemma TenSecondP99Facts(s: Signal<Reading>)
    requires s == TenSecondP99()
    ensures ValidSignal(s, 0) && |s.instruments| == 1 && Capable(s.instruments[0], {}) && AllDependable(s)
    ensures FeedContract(PlainFeed(), s)
    ensures !SomeFills(s, {}, SECOND, MinCapableMin(s, {}))
    ensures s.instruments[0].measurement.reduction == P99
    ensures s.instruments[0].measurement.span == s.demoteSpan == 10 * SECOND
  {
    assert Capable(s.instruments[0], {});
    BuiltInIsDependable(P99);
    MinimumFacts(s, {}, 0);
    assert Feeds(PlainFeed(), s.instruments[0]);
    assert !Fills(s.instruments[0], s.demoteSpan, SECOND, 100);
  }
}
