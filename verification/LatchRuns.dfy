/** What every latch of the tree keeps over every run of the engine: how old its evidence may
    be, what a reported verdict rests on, and how episodes follow one another. */
module LatchRuns {
  import opened Measure
  import opened Windows
  import opened WindowHistory
  import opened Judge
  import opened Declare
  import opened Engines
  import opened Refinements

  /** The instants of a run, as samples that read nothing. */
  function Beats<S>(steps: seq<Step<S>>): (beats: seq<Sample>)
    ensures |beats| == |steps| && forall i :: 0 <= i < |steps| ==> beats[i].at == steps[i].at
  {
    seq(|steps|, i requires 0 <= i < |steps| => Sample(Unknown, Unknown, steps[i].at))
  }

  /** The clock is the one the windows require. */
  ghost predicate Paced<S>(steps: seq<Step<S>>) { Clocked(Beats(steps)) }

  lemma PacedMeaning<S>(steps: seq<Step<S>>)
    ensures Paced(steps) <==>
            && (forall i :: 0 <= i < |steps| ==> steps[i].at > ZERO_TIME)
            && (forall i, j :: 0 <= i < j < |steps| ==> steps[i].at <= steps[j].at)
  {
    ClockedMeaning(Beats(steps));
  }

  function LastInstant<S>(steps: seq<Step<S>>): Instant {
    if steps == [] then ZERO_TIME else steps[|steps| - 1].at
  }

  ghost predicate SoundNode<S>(n: Node<S>) {
    && n.demoteSpan > 0
    && DistinctInstruments(n.instruments)
    && (forall k :: 0 <= k < |n.instruments| ==>
          n.instruments[k].measurement.span > 0 && ValidMarks(n.instruments[k].marks))
    && n.latch == NewLatch(n.latch.identity)
  }

  /** What the latch of `n` was driven with on step `k`. */
  ghost function AnswerAt<S>(n: Node<S>, steps: seq<Step<S>>, k: nat): Resolution
    requires k < |steps|
  {
    OwnAnswer(n, steps[..k + 1], steps[k].env)
  }

  ghost function LatchAfter<S>(n: Node<S>, steps: seq<Step<S>>, k: nat): LatchState
    requires k <= |steps|
  {
    OwnLatch(n, steps[..k])
  }

  // ----- What an answer is -----

  lemma {:induction false} RunKeepsConfig(c: Config, h: seq<Sample>)
    ensures Run(c, h).cfg == c
  {
    if h != [] { RunKeepsConfig(c, h[..|h| - 1]); }
  }

  lemma {:induction false} CapableAreDeclared<S>(insts: seq<Instrument<S>>, env: Environment, i: nat)
    requires i < |CapableOf(insts, env)|
    ensures exists k :: 0 <= k < |insts| && insts[k] == CapableOf(insts, env)[i]
  {
    if Capable(insts[0], env) && i == 0 {
    } else {
      var rest := if Capable(insts[0], env) then i - 1 else i;
      CapableAreDeclared(insts[1..], env, rest);
      var k :| 0 <= k < |insts[1..]| && insts[1..][k] == CapableOf(insts[1..], env)[rest];
      assert insts[k + 1] == insts[1..][k];
    }
  }

  /** Instrument `k` of `n` is the one an answer names, with its marks and its window's span. */
  ghost predicate AnswersWith<S>(n: Node<S>, k: nat, r: Resolution) {
    && k < |n.instruments| && r.Answer?
    && r.instrument == n.instruments[k].Name()
    && r.marks == n.instruments[k].marks
    && r.coverage.span == n.instruments[k].measurement.span > 0
    && r.reduced.state == StateValue
  }

  /** An answer is trustworthy, comes from a declared instrument and spans a positive window. */
  lemma {:induction false} AnswerFacts<S>(n: Node<S>, steps: seq<Step<S>>, env: Environment)
    requires SoundNode(n) && OwnAnswer(n, steps, env).Answer?
    ensures exists k: nat :: AnswersWith(n, k, OwnAnswer(n, steps, env))
  {
    var ws := OwnWindows(n.path, n.instruments, n.demoteSpan, steps);
    var capable := CapableOf(n.instruments, env);
    var i := FirstReady(ws, n.path, capable);
    CapableAreDeclared(n.instruments, env, i);
    var k: nat :| k < |n.instruments| && n.instruments[k] == capable[i];
    OwnWindowAt(n.path, n.instruments, n.demoteSpan, steps, k);
    RunKeepsConfig(n.instruments[k].WindowConfig(n.demoteSpan), SeriesOf(n.instruments[k], steps));
    assert AnswersWith(n, k, OwnAnswer(n, steps, env));
  }

  // ----- Timing -----

  /** The instants of a latch at a moment `now`. */
  ghost predicate Timely(l: LatchState, demoteSpan: int, now: Instant) {
    && ZERO_TIME <= l.since <= l.lastUpdate <= now
    && ZERO_TIME <= l.lastRelease <= now
    && (l.fired ==> l.since > ZERO_TIME && now - l.lastUpdate < demoteSpan)
    && (l.fired ==> l.lastRelease < l.since)
    && (!l.fired ==> l.since <= l.lastRelease)
  }

  lemma JudgingKeepsTimely(l: LatchState, r: Resolution, demoteSpan: int, roa: bool, before: Instant, now: Instant)
    requires Timely(l, demoteSpan, before) && before <= now && now > ZERO_TIME && demoteSpan > 0
    requires r.Answer? ==> r.reduced.state == StateValue && r.coverage.span > 0
    ensures Timely(JudgeLatch(l, r, demoteSpan, roa, now), demoteSpan, now)
  {
  }

  lemma {:induction false} LatchIsTimely<S>(n: Node<S>, steps: seq<Step<S>>)
    requires SoundNode(n) && Paced(steps)
    ensures Timely(OwnLatch(n, steps), n.demoteSpan, LastInstant(steps))
  {
    if steps != [] {
      var last := steps[|steps| - 1];
      var before, r := steps[..|steps| - 1], OwnAnswer(n, steps, last.env);
      PacedMeaning(steps);
      PacedMeaning(before);
      LatchIsTimely(n, before);
      if r.Answer? { AnswerFacts(n, steps, last.env); }
      JudgingKeepsTimely(OwnLatch(n, before), r, n.demoteSpan, n.releaseOnAbsent, LastInstant(before), last.at);
    }
  }

  // ----- Evidence -----

  /** On step `k` the latch was driven with exactly the value, marks and instrument it now carries,
      from a declared instrument, and that value is past those marks' fire. */
  ghost predicate RestsOn<S>(l: LatchState, n: Node<S>, steps: seq<Step<S>>, k: nat) {
    && k < |steps|
    && var r := AnswerAt(n, steps, k);
    && r.Answer?
    && l.instrument == r.instrument && l.marks == r.marks && r.reduced == Reduced(l.value, StateValue)
    && (exists i: nat :: AnswersWith(n, i, r))
    && CrossedFire(l.value, l.marks)
  }

  ghost predicate TrustedOn<S>(l: LatchState, n: Node<S>, steps: seq<Step<S>>, k: nat) {
    k < |steps| && AnswerAt(n, steps, k).Answer? && steps[k].at == l.lastUpdate
  }

  lemma AnswerAtPrefix<S>(n: Node<S>, steps: seq<Step<S>>, k: nat)
    requires steps != [] && k < |steps| - 1
    ensures AnswerAt(n, steps[..|steps| - 1], k) == AnswerAt(n, steps, k)
  {
    assert steps[..|steps| - 1][..k + 1] == steps[..k + 1];
  }

  /** A latch left fired by one step either kept its evidence or took this step's answer. */
  lemma JudgingMovesEvidence(l0: LatchState, r: Resolution, demoteSpan: int, roa: bool, at: Instant)
    requires r.Answer? ==> r.reduced.state == StateValue
    ensures var l := JudgeLatch(l0, r, demoteSpan, roa, at);
            l.fired ==>
              && (|| (l0.fired && (l.value, l.marks, l.instrument) == (l0.value, l0.marks, l0.instrument))
                  || (r.Answer? && (l.value, l.marks, l.instrument) == (r.reduced.v, r.marks, r.instrument)
                      && CrossedFire(l.value, l.marks)))
              && l.lastUpdate == (if r.Answer? then at else l0.lastUpdate)
              && (!r.Answer? ==> l0.fired)
  {
  }

  lemma {:induction false} FiredRestsOnEvidence<S>(n: Node<S>, steps: seq<Step<S>>)
    requires SoundNode(n) && OwnLatch(n, steps).fired
    ensures exists k: nat :: RestsOn(OwnLatch(n, steps), n, steps, k)
    ensures exists k: nat :: TrustedOn(OwnLatch(n, steps), n, steps, k)
  {
    var before, last := steps[..|steps| - 1], steps[|steps| - 1];
    var l0, l, r := OwnLatch(n, before), OwnLatch(n, steps), OwnAnswer(n, steps, last.env);
    assert steps[..|before| + 1] == steps;
    if r.Answer? { AnswerFacts(n, steps, last.env); }
    JudgingMovesEvidence(l0, r, n.demoteSpan, n.releaseOnAbsent, last.at);
    if l0.fired { FiredRestsOnEvidence(n, before); }
    if l0.fired && (l.value, l.marks, l.instrument) == (l0.value, l0.marks, l0.instrument) {
      var k: nat :| RestsOn(l0, n, before, k);
      AnswerAtPrefix(n, steps, k);
      assert RestsOn(l, n, steps, k);
    } else {
      assert RestsOn(l, n, steps, |before|);
    }
    if r.Answer? {
      assert TrustedOn(l, n, steps, |before|);
    } else {
      var u: nat :| TrustedOn(l0, n, before, u);
      AnswerAtPrefix(n, steps, u);
      assert TrustedOn(l, n, steps, u);
    }
  }

  // ----- Episodes -----

  lemma PacedPrefix<S>(steps: seq<Step<S>>, k: nat)
    requires Paced(steps) && k <= |steps|
    ensures Paced(steps[..k])
    ensures k > 0 ==> steps[k - 1].at > ZERO_TIME
  {
    PacedMeaning(steps);
    PacedMeaning(steps[..k]);
  }

  lemma OneStep<S>(n: Node<S>, steps: seq<Step<S>>, k: nat)
    requires k < |steps|
    ensures LatchAfter(n, steps, k + 1) ==
            JudgeLatch(LatchAfter(n, steps, k), AnswerAt(n, steps, k), n.demoteSpan, n.releaseOnAbsent, steps[k].at)
  {
    assert steps[..k + 1][..k] == steps[..k];
  }

  /** Instrument `m` is the one that fired, and a whole span of its window has passed since the last
      release, if there was one. */
  ghost predicate WaitedOut<S>(n: Node<S>, m: nat, l0: LatchState, l: LatchState) {
    && m < |n.instruments|
    && l.instrument == n.instruments[m].Name()
    && (l0.lastRelease != ZERO_TIME ==> l.since >= l0.lastRelease + n.instruments[m].measurement.span > l0.lastRelease)
  }

  /** Firing: the verdict dates from this very step, its evidence is this step's answer, and the
      firing instrument's window has been waited out. */
  lemma {:induction false} NewFireWaitsOutTheSpan<S>(n: Node<S>, steps: seq<Step<S>>, k: nat)
    requires SoundNode(n) && Paced(steps) && k < |steps|
    requires !LatchAfter(n, steps, k).fired && LatchAfter(n, steps, k + 1).fired
    ensures LatchAfter(n, steps, k + 1).since == LatchAfter(n, steps, k + 1).lastUpdate == steps[k].at
    ensures RestsOn(LatchAfter(n, steps, k + 1), n, steps, k)
    ensures var l0, l := LatchAfter(n, steps, k), LatchAfter(n, steps, k + 1);
            exists m: nat :: WaitedOut(n, m, l0, l)
  {
    OneStep(n, steps, k);
    var before := steps[..k + 1];
    assert AnswerAt(n, steps, k) == OwnAnswer(n, before, steps[k].env);
    AnswerFacts(n, before, steps[k].env);
    var m: nat :| AnswersWith(n, m, AnswerAt(n, steps, k));
    assert WaitedOut(n, m, LatchAfter(n, steps, k), LatchAfter(n, steps, k + 1));
  }

  /** What one step may do to the date of an episode. */
  ghost predicate DatedStep(l0: LatchState, l: LatchState) {
    && (l0.fired ==> l0.since > ZERO_TIME)
    && (l0.fired && l.fired ==> l.since == l0.since)
    && (l0.fired && !l.fired ==> l.lastRelease >= l0.since)
    && (!l0.fired && !l.fired ==> l.lastRelease == l0.lastRelease)
    && (!l0.fired && l.fired && l0.lastRelease > ZERO_TIME ==> l.since > l0.lastRelease)
  }

  lemma JudgingIsDated(l: LatchState, r: Resolution, demoteSpan: int, roa: bool, before: Instant, now: Instant)
    requires Timely(l, demoteSpan, before) && Timely(JudgeLatch(l, r, demoteSpan, roa, now), demoteSpan, now)
    ensures DatedStep(l, JudgeLatch(l, r, demoteSpan, roa, now))
  {
  }

  lemma EachStepIsDated<S>(n: Node<S>, steps: seq<Step<S>>, k: nat)
    requires SoundNode(n) && Paced(steps) && k < |steps|
    ensures DatedStep(LatchAfter(n, steps, k), LatchAfter(n, steps, k + 1))
  {
    var l0, l := LatchAfter(n, steps, k), LatchAfter(n, steps, k + 1);
    OneStep(n, steps, k);
    TimelyAt(n, steps, k);
    TimelyAt(n, steps, k + 1);
    JudgingIsDated(l0, AnswerAt(n, steps, k), n.demoteSpan, n.releaseOnAbsent, LastInstant(steps[..k]), steps[k].at);
  }

  lemma TimelyAt<S>(n: Node<S>, steps: seq<Step<S>>, k: nat)
    requires SoundNode(n) && Paced(steps) && k <= |steps|
    ensures Timely(LatchAfter(n, steps, k), n.demoteSpan, LastInstant(steps[..k]))
    ensures k > 0 ==> LastInstant(steps[..k]) == steps[k - 1].at
  {
    PacedPrefix(steps, k);
    LatchIsTimely(n, steps[..k]);
  }

  ghost predicate FiredThroughout(ls: seq<LatchState>, i: nat, j: nat)
    requires j < |ls|
  {
    forall k :: i <= k <= j ==> ls[k].fired
  }

  lemma {:induction false} EpisodesOfTrace(ls: seq<LatchState>, i: nat, j: nat)
    requires forall k :: 0 <= k < |ls| - 1 ==> DatedStep(ls[k], ls[k + 1])
    requires i <= j < |ls| && ls[i].fired && ls[i].since > ZERO_TIME
    ensures FiredThroughout(ls, i, j) ==> ls[j].since == ls[i].since
    ensures !FiredThroughout(ls, i, j) ==> if ls[j].fired then ls[j].since > ls[i].since else ls[j].lastRelease >= ls[i].since
    decreases j - i
  {
    if i < j {
      EpisodesOfTrace(ls, i, j - 1);
      assert DatedStep(ls[j - 1], ls[j - 1 + 1]);
      assert FiredThroughout(ls, i, j) <==> FiredThroughout(ls, i, j - 1) && ls[j].fired;
    }
  }

  /** The latch of `n` before the run and after each of its steps. */
  ghost function Trace<S>(n: Node<S>, steps: seq<Step<S>>): (ls: seq<LatchState>)
    ensures |ls| == |steps| + 1 && forall k :: 0 <= k <= |steps| ==> ls[k] == LatchAfter(n, steps, k)
  {
    seq(|steps| + 1, k requires 0 <= k <= |steps| => LatchAfter(n, steps, k))
  }

  /** From a fired moment `i` to a fired moment `j`: within one episode the date is unchanged, even
      when the blame moves; across a release it is strictly later. */
  lemma EpisodesFollowOneAnother<S>(n: Node<S>, steps: seq<Step<S>>, i: nat, j: nat)
    requires SoundNode(n) && Paced(steps) && i <= j <= |steps|
    requires LatchAfter(n, steps, i).fired && LatchAfter(n, steps, j).fired
    ensures if FiredThroughout(Trace(n, steps), i, j) then LatchAfter(n, steps, j).since == LatchAfter(n, steps, i).since
            else LatchAfter(n, steps, j).since > LatchAfter(n, steps, i).since
  {
    var ls := Trace(n, steps);
    forall k | 0 <= k < |ls| - 1 ensures DatedStep(ls[k], ls[k + 1]) {
      EachStepIsDated(n, steps, k);
    }
    PacedPrefix(steps, i);
    LatchIsTimely(n, steps[..i]);
    EpisodesOfTrace(ls, i, j);
  }

  // ----- The same, for every latch of the engine -----

  lemma PlaceIsSound<S>(t: Table<S>, i: nat)
    requires ValidTable(t) && i < |Places("", t.signals, 0)|
    ensures SoundNode(NodeAt(Places("", t.signals, 0)[i]))
  {
    PlaceIsValid("", t.signals, 0, t.interval, i);
  }

  /** After every tick of every run of a valid table, at every depth: a fired latch had a
      trustworthy answer less than its demote span ago; its value was measured by a declared
      instrument carrying the very marks it reports, and lies on their firing side and not on
      their clearing side; its severity is in [0,1], and 0 only on an inclusive fire mark. */
  lemma EveryLatchOfAnyRun<S(00,!new)>(t: Table<S>, steps: seq<Step<S>>, i: nat)
    requires ValidTable(t) && Paced(steps) && i < |Places("", t.signals, 0)|
    ensures |Flat(RunEngine(NewState(t), steps).signals)| == |Places("", t.signals, 0)|
    ensures var n, l := NodeAt(Places("", t.signals, 0)[i]), Flat(RunEngine(NewState(t), steps).signals)[i].latch;
            l.fired ==>
              && LastInstant(steps) - l.lastUpdate < n.demoteSpan
              && (exists k: nat :: TrustedOn(l, n, steps, k))
              && (exists k: nat :: RestsOn(l, n, steps, k))
              && ValidMarks(l.marks)
              && CrossedFire(l.value, l.marks) && !CrossedClear(l.value, l.marks)
              && 0.0 <= Severity(Verdict(l)) <= 1.0
              && (Severity(Verdict(l)) == 0.0 <==> l.marks.fire.inclusive && l.value == l.marks.fire.at)
  {
    StartIsWellKeyed(t);
    EngineFollowsEachSignal(t, steps);
    PlaceIsSound(t, i);
    var n := NodeAt(Places("", t.signals, 0)[i]);
    var l := OwnLatch(n, steps);
    assert Flat(RunEngine(NewState(t), steps).signals)[i].latch == l;
    if l.fired {
      LatchIsTimely(n, steps);
      FiredRestsOnEvidence(n, steps);
      var k: nat :| RestsOn(l, n, steps, k);
      var m: nat :| AnswersWith(n, m, AnswerAt(n, steps, k));
      assert ValidMarks(l.marks);
      FireAndClearAreDisjoint(l.value, l.marks);
      SeverityOfEvidence(Verdict(l));
    }
  }

  /** The latch of signal `p` of the tree after the first `k` ticks of a run of the engine. */
  ghost function EngineLatch<S>(t: Table<S>, steps: seq<Step<S>>, p: nat, k: nat): LatchState
    requires k <= |steps| && p < |Flat(RunEngine(NewState(t), steps[..k]).signals)|
  {
    Flat(RunEngine(NewState(t), steps[..k]).signals)[p].latch
  }

  lemma EngineLatchIsOwn<S(00,!new)>(t: Table<S>, steps: seq<Step<S>>, p: nat, k: nat)
    requires ValidTable(t) && k <= |steps| && p < |Places("", t.signals, 0)|
    ensures p < |Flat(RunEngine(NewState(t), steps[..k]).signals)|
    ensures EngineLatch(t, steps, p, k) == LatchAfter(NodeAt(Places("", t.signals, 0)[p]), steps, k)
  {
    StartIsWellKeyed(t);
    EngineFollowsEachSignal(t, steps[..k]);
  }

  /** Episodes of any signal of the tree over any run of the engine: the date stays put while the
      signal stays fired, and a later episode has a strictly later date. */
  lemma EpisodesOfAnyRun<S(00,!new)>(t: Table<S>, steps: seq<Step<S>>, p: nat, i: nat, j: nat)
    requires ValidTable(t) && Paced(steps) && p < |Places("", t.signals, 0)| && i <= j <= |steps|
    ensures forall k :: 0 <= k <= |steps| ==> p < |Flat(RunEngine(NewState(t), steps[..k]).signals)|
    ensures EngineLatch(t, steps, p, i).fired && EngineLatch(t, steps, p, j).fired ==>
              if forall k :: i <= k <= j ==> EngineLatch(t, steps, p, k).fired
              then EngineLatch(t, steps, p, j).since == EngineLatch(t, steps, p, i).since
              else EngineLatch(t, steps, p, j).since > EngineLatch(t, steps, p, i).since
  {
    var n := NodeAt(Places("", t.signals, 0)[p]);
    PlaceIsSound(t, p);
    forall k | 0 <= k <= |steps|
      ensures p < |Flat(RunEngine(NewState(t), steps[..k]).signals)|
      ensures EngineLatch(t, steps, p, k) == Trace(n, steps)[k]
    {
      EngineLatchIsOwn(t, steps, p, k);
    }
    if EngineLatch(t, steps, p, i).fired && EngineLatch(t, steps, p, j).fired {
      EpisodesFollowOneAnother(n, steps, i, j);
    }
  }

  /** A new fire of any signal of the tree is dated now, after the whole span of the window that
      fired it since the signal's last release. */
  lemma NewFireOfAnyRun<S(00,!new)>(t: Table<S>, steps: seq<Step<S>>, p: nat, k: nat)
    requires ValidTable(t) && Paced(steps) && p < |Places("", t.signals, 0)| && k < |steps|
    ensures p < |Flat(RunEngine(NewState(t), steps[..k]).signals)|
    ensures p < |Flat(RunEngine(NewState(t), steps[..k + 1]).signals)|
    ensures var n, l0, l := NodeAt(Places("", t.signals, 0)[p]), EngineLatch(t, steps, p, k), EngineLatch(t, steps, p, k + 1);
            !l0.fired && l.fired ==> l.since == steps[k].at && exists m: nat :: WaitedOut(n, m, l0, l)
  {
    var n := NodeAt(Places("", t.signals, 0)[p]);
    PlaceIsSound(t, p);
    EngineLatchIsOwn(t, steps, p, k);
    EngineLatchIsOwn(t, steps, p, k + 1);
    if !LatchAfter(n, steps, k).fired && LatchAfter(n, steps, k + 1).fired {
      NewFireWaitsOutTheSpan(n, steps, k);
    }
  }
}
