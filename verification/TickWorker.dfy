/** One tick of a worker: freshness, action gate, state machine, signal
    (supervisor/reconciliation.go tickWorker and restartCollector). What the store, the executor and
    the clock answer comes in as input; the clock is read once per tick. */
module TickWorker {
  import opened CollectorHealth
  import ActionGate

  datatype Option<T> = None | Some(value: T)

  datatype Signal = NoSignal | NeedsRemoval | NeedsRestart | UnknownSignal

  /** What a state machine answers. */
  datatype Answer<S> = Answer(state: S, signal: Signal, action: Option<string>)

  /** What one tick reads: whether all loads succeed, the snapshot, and what the executor answers. */
  datatype Input<O> = Input(
    loads: bool,
    look: Look,
    observed: O,
    disabled: bool,
    inProgress: bool,
    enqueues: bool)

  /** The worker context and the supervisor's collector health. */
  datatype Ticking<S> = Ticking(health: Health, gate: ActionGate.Gate, state: Option<S>)

  /** How a tick ends. The last four evaluated the state. */
  datatype Effect =
    | LoadFailed
    | Held(verdict: Verdict)
    | Gated
    | NoMachine
    | Invalid
    | Skipped
    | EnqueueFailed
    | Finished(signal: Signal, enqueued: bool)

  type Machine<!S, !O> = (S, O, bool, bool) -> Answer<S>

  predicate Evaluated(e: Effect) { e.Invalid? || e.Skipped? || e.EnqueueFailed? || e.Finished? }

  predicate Enqueued(e: Effect) { e.Finished? && e.enqueued }

  /** The whole effect of a tick. A shutdown request passes both gates and leaves the action gate
      as it was. */
  function Tick<S(==), O>(t: Thresholds, next: Machine<S, O>, w: Ticking<S>, i: Input<O>): (Ticking<S>, Effect) {
    if !i.loads then (w, LoadFailed)
    else
      var verdict := VerdictOf(t, w.health, i.look);
      var health := After(w.health, verdict, i.look.now);
      if verdict != Pass then (w.(health := health), Held(verdict))
      else if !i.look.shutdown && !ActionGate.Admits(w.gate, i.look.observedAt) then (w.(health := health), Gated)
      else
        var gate := if i.look.shutdown then w.gate else ActionGate.After(w.gate, i.look.observedAt, false);
        var w1 := w.(health := health, gate := gate);
        Evaluate(next, w1, i)
  }

  function Evaluate<S(==), O>(next: Machine<S, O>, w: Ticking<S>, i: Input<O>): (Ticking<S>, Effect) {
    if w.state.None? then (w, NoMachine)
    else
      var a := next(w.state.value, i.observed, i.look.shutdown, i.disabled);
      if a.state != w.state.value && a.action.Some? then (w, Invalid)
      else if a.action.Some? && i.inProgress then (w, Skipped)
      else if a.action.Some? && !i.enqueues then (w, EnqueueFailed)
      else
        var gate := if a.action.Some? then ActionGate.Pending(i.look.observedAt) else w.gate;
        (w.(gate := gate, state := Some(a.state)), Finished(a.signal, a.action.Some?))
  }

  class Supervisor<S(==), O> {
    const t: Thresholds
    var restartCount: int
    var lastRestart: int
    var actionPending: bool
    var lastActionObsTime: int
    var currentState: Option<S>

    ghost predicate Valid()
      reads this
    {
      Accepted(t) && 0 <= restartCount <= t.maxRestarts && (!actionPending ==> lastActionObsTime == 0)
    }

    function Now(): Ticking<S>
      reads this
    {
      Ticking(Health(restartCount, lastRestart),
              if actionPending then ActionGate.Pending(lastActionObsTime) else ActionGate.Open, currentState)
    }

    constructor (t: Thresholds, initial: Option<S>)
      requires Accepted(t)
      ensures Valid() && this.t == t && Now() == Ticking(Health(0, 0), ActionGate.Open, initial)
    {
      this.t := t;
      restartCount, lastRestart, actionPending, lastActionObsTime, currentState := 0, 0, false, 0, initial;
    }

    /** Its caller must have escalated already at the maximum: the source panics otherwise. */
    method RestartCollector(now: int) returns (restarted: bool)
      requires Valid() && restartCount < t.maxRestarts
      modifies this`restartCount, this`lastRestart
      ensures Valid()
      ensures restarted == (old(lastRestart) == 0 || now - old(lastRestart) >= Wait(old(restartCount)))
      ensures Now().health == if restarted then Health(old(restartCount) + 1, now) else old(Now().health)
    {
      var backoff := Seconds((restartCount + 1) * 2);
      if lastRestart != 0 {
        if now - lastRestart < backoff { return false; }
      }
      restartCount := restartCount + 1;
      lastRestart := now;
      return true;
    }

    method TickWorker(next: Machine<S, O>, i: Input<O>) returns (e: Effect)
      requires Valid()
      modifies this
      ensures Valid() && (Now(), e) == Tick(t, next, old(Now()), i)
    {
      if !i.loads { return LoadFailed; }
      var age := i.look.now - i.look.observedAt;
      var recent := age < t.timeout && age < t.stale;
      if !i.look.shutdown && !recent {
        if age >= t.timeout {
          if restartCount >= t.maxRestarts { return Held(Escalate); }
          var restarted := RestartCollector(i.look.now);
          return Held(if restarted then Restart else Backoff);
        }
        return Held(Pause);
      }
      if restartCount > 0 { restartCount := 0; }
      if actionPending && !i.look.shutdown {
        if i.look.observedAt > lastActionObsTime {
          actionPending, lastActionObsTime := false, 0;
        } else {
          return Gated;
        }
      }
      e := EvaluateState(next, i);
    }

    method EvaluateState(next: Machine<S, O>, i: Input<O>) returns (e: Effect)
      requires Valid()
      modifies this`actionPending, this`lastActionObsTime, this`currentState
      ensures Valid() && (Now(), e) == Evaluate(next, old(Now()), i)
    {
      if currentState.None? { return NoMachine; }
      var a := next(currentState.value, i.observed, i.look.shutdown, i.disabled);
      if a.state != currentState.value && a.action.Some? { return Invalid; }
      if a.action.Some? {
        if i.inProgress { return Skipped; }
        if !i.enqueues { return EnqueueFailed; }
        actionPending, lastActionObsTime := true, i.look.observedAt;
      }
      if a.state != currentState.value { currentState := Some(a.state); }
      return Finished(a.signal, a.action.Some?);
    }
  }

  // ----- Whole runs of one worker context -----

  function Run<S(==), O>(t: Thresholds, next: Machine<S, O>, w: Ticking<S>, inputs: seq<Input<O>>): Ticking<S> {
    if inputs == [] then w
    else Tick(t, next, Run(t, next, w, inputs[..|inputs| - 1]), inputs[|inputs| - 1]).0
  }

  function EffectAt<S(==), O>(t: Thresholds, next: Machine<S, O>, w: Ticking<S>, inputs: seq<Input<O>>, i: nat): Effect
    requires i < |inputs|
  {
    Tick(t, next, Run(t, next, w, inputs[..i]), inputs[i]).1
  }

  /** The loads that succeeded, as the health sees them. */
  function Looks<O>(inputs: seq<Input<O>>): seq<Event> {
    if inputs == [] then []
    else
      var before, last := Looks(inputs[..|inputs| - 1]), inputs[|inputs| - 1];
      if last.loads then before + [Ticked(last.look)] else before
  }

  /** The health over a run is the health of its looks, so what holds of every run of events holds
      of every run of ticks. */
  lemma {:induction false} HealthFollowsLooks<S, O>(t: Thresholds, next: Machine<S, O>, w: Ticking<S>, inputs: seq<Input<O>>)
    ensures Run(t, next, w, inputs).health == CollectorHealth.Run(t, w.health, Looks(inputs))
  {
    if inputs != [] {
      var before, last := inputs[..|inputs| - 1], inputs[|inputs| - 1];
      HealthFollowsLooks(t, next, w, before);
      if last.loads {
        var looks := Looks(inputs);
        assert looks[..|looks| - 1] == Looks(before);
      }
    }
  }

  /** No tick of the run sees a shutdown request. */
  ghost predicate Unrequested<O>(inputs: seq<Input<O>>) {
    forall i :: 0 <= i < |inputs| ==> !inputs[i].look.shutdown
  }

  predicate Passes<S, O>(t: Thresholds, w: Ticking<S>, i: Input<O>) {
    i.loads && VerdictOf(t, w.health, i.look) == Pass
  }

  /** The ticks that got past the freshness gate, as the action gate sees them. */
  function Admitted<S(==), O>(t: Thresholds, next: Machine<S, O>, w: Ticking<S>, inputs: seq<Input<O>>): seq<ActionGate.Tick> {
    if inputs == [] then []
    else
      var before, last := inputs[..|inputs| - 1], inputs[|inputs| - 1];
      var at := Run(t, next, w, before);
      if Passes(t, at, last)
      then Admitted(t, next, w, before) + [ActionGate.Tick(last.look.observedAt, Enqueued(Tick(t, next, at, last).1))]
      else Admitted(t, next, w, before)
  }

  lemma GateStep<S, O>(t: Thresholds, next: Machine<S, O>, w: Ticking<S>, i: Input<O>)
    requires !i.look.shutdown
    ensures var (w', e) := Tick(t, next, w, i);
            w'.gate == if Passes(t, w, i) then ActionGate.After(w.gate, i.look.observedAt, Enqueued(e)) else w.gate
    ensures var e := Tick(t, next, w, i).1;
            Evaluated(e) ==> Passes(t, w, i) && ActionGate.Admits(w.gate, i.look.observedAt)
  {
  }

  lemma {:induction false} GateFollowsAdmitted<S, O>(t: Thresholds, next: Machine<S, O>, w: Ticking<S>, inputs: seq<Input<O>>)
    requires Unrequested(inputs)
    ensures Run(t, next, w, inputs).gate == ActionGate.Run(w.gate, Admitted(t, next, w, inputs))
  {
    if inputs != [] {
      var before, last := inputs[..|inputs| - 1], inputs[|inputs| - 1];
      GateFollowsAdmitted(t, next, w, before);
      var at := Run(t, next, w, before);
      GateStep(t, next, at, last);
      if Passes(t, at, last) {
        var ticks := Admitted(t, next, w, inputs);
        assert ticks[..|ticks| - 1] == Admitted(t, next, w, before);
      }
    }
  }

  /** Where an admitted tick sits among the admitted ones. */
  lemma {:induction false} AdmittedPrefix<S, O>(t: Thresholds, next: Machine<S, O>, w: Ticking<S>, inputs: seq<Input<O>>, i: nat)
    requires i <= |inputs|
    ensures Admitted(t, next, w, inputs[..i]) <= Admitted(t, next, w, inputs)
    decreases |inputs| - i
  {
    if i == |inputs| {
      assert inputs[..i] == inputs;
    } else {
      AdmittedPrefix(t, next, w, inputs, i + 1);
      assert inputs[..i + 1][..i] == inputs[..i];
    }
  }

  lemma EvaluatedIsAdmitted<S, O>(t: Thresholds, next: Machine<S, O>, w: Ticking<S>, inputs: seq<Input<O>>, i: nat) returns (k: nat)
    requires Unrequested(inputs) && i < |inputs| && Evaluated(EffectAt(t, next, w, inputs, i))
    ensures k == |Admitted(t, next, w, inputs[..i])| < |Admitted(t, next, w, inputs)|
    ensures var ticks := Admitted(t, next, w, inputs);
            ActionGate.EvaluatedAt(w.gate, ticks, k)
            && ticks[k] == ActionGate.Tick(inputs[i].look.observedAt, Enqueued(EffectAt(t, next, w, inputs, i)))
  {
    var before := inputs[..i];
    k := |Admitted(t, next, w, before)|;
    var at := Run(t, next, w, before);
    GateStep(t, next, at, inputs[i]);
    GateFollowsAdmitted(t, next, w, before);
    assert inputs[..i + 1][..i] == before;
    AdmittedPrefix(t, next, w, inputs, i + 1);
    assert Admitted(t, next, w, inputs[..i + 1])[..k] == Admitted(t, next, w, before);
    assert Admitted(t, next, w, inputs)[..k] == Admitted(t, next, w, before);
  }

  lemma AdmittedGrows<S, O>(t: Thresholds, next: Machine<S, O>, w: Ticking<S>, inputs: seq<Input<O>>, i: nat, j: nat)
    requires i < j <= |inputs| && Passes(t, Run(t, next, w, inputs[..i]), inputs[i])
    ensures |Admitted(t, next, w, inputs[..i])| < |Admitted(t, next, w, inputs[..j])|
  {
    assert inputs[..j][..i + 1] == inputs[..i + 1];
    AdmittedPrefix(t, next, w, inputs[..j], i + 1);
    assert inputs[..i + 1][..i] == inputs[..i];
  }

  /** Over every run of one worker context without a shutdown request whose observations never fall
      back: the observations that actions were enqueued on strictly increase, and the state is never
      evaluated again on one no newer than an action's. */
  lemma ActionsRestOnNewObservations<S, O>(t: Thresholds, next: Machine<S, O>, w: Ticking<S>, inputs: seq<Input<O>>, i: nat, j: nat)
    requires Unrequested(inputs) && i < j < |inputs|
    requires ActionGate.NeverFallsBack(ActionGate.Observations(Admitted(t, next, w, inputs)))
    requires Enqueued(EffectAt(t, next, w, inputs, i)) && Evaluated(EffectAt(t, next, w, inputs, j))
    ensures inputs[i].look.observedAt < inputs[j].look.observedAt
  {
    var ticks := Admitted(t, next, w, inputs);
    var m := EvaluatedIsAdmitted(t, next, w, inputs, i);
    var n := EvaluatedIsAdmitted(t, next, w, inputs, j);
    GateStep(t, next, Run(t, next, w, inputs[..i]), inputs[i]);
    AdmittedGrows(t, next, w, inputs, i, j);
    ActionGate.NotAgainBeforeNews(w.gate, ticks, m, n);
    var k :| m < k <= n && ticks[k].observedAt > ticks[m].observedAt;
    if k < n {
      assert !ActionGate.FallsBack(ActionGate.Observations(ticks), m, k, n);
    }
  }

  /** The store hands out observations in the order they were made. */
  ghost predicate InOrder<O>(inputs: seq<Input<O>>) {
    forall i, j :: 0 <= i <= j < |inputs| ==> inputs[i].look.observedAt <= inputs[j].look.observedAt
  }

  lemma {:induction false} AdmittedInOrder<S, O>(t: Thresholds, next: Machine<S, O>, w: Ticking<S>, inputs: seq<Input<O>>)
    requires InOrder(inputs)
    ensures var obs := ActionGate.Observations(Admitted(t, next, w, inputs));
            ActionGate.NonDecreasing(obs) && (obs != [] ==> obs[|obs| - 1] <= inputs[|inputs| - 1].look.observedAt)
  {
    if inputs != [] {
      var before, last := inputs[..|inputs| - 1], inputs[|inputs| - 1];
      AdmittedInOrder(t, next, w, before);
      var ticks := Admitted(t, next, w, before);
      if Passes(t, Run(t, next, w, before), last) {
        var more := Admitted(t, next, w, inputs);
        assert more[..|more| - 1] == ticks;
        assert ActionGate.Observations(more) == ActionGate.Observations(ticks) + [last.look.observedAt];
      }
    }
  }

  /** In particular when observations are read in the order they were made. */
  lemma ActionsRestOnNewerOnes<S, O>(t: Thresholds, next: Machine<S, O>, w: Ticking<S>, inputs: seq<Input<O>>, i: nat, j: nat)
    requires Unrequested(inputs) && InOrder(inputs) && i < j < |inputs|
    requires Enqueued(EffectAt(t, next, w, inputs, i)) && Evaluated(EffectAt(t, next, w, inputs, j))
    ensures inputs[i].look.observedAt < inputs[j].look.observedAt
  {
    AdmittedInOrder(t, next, w, inputs);
    ActionGate.NonDecreasingIsSteady(ActionGate.Observations(Admitted(t, next, w, inputs)));
    ActionsRestOnNewObservations(t, next, w, inputs, i, j);
  }
}
