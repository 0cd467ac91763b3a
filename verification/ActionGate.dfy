/** Waiting for a fresh observation after an action (supervisor/reconciliation.go 291-341, 377-417). */
module ActionGate {

  /** The observation that justified the pending action, if one is pending. */
  datatype Gate = Open | Pending(since: int)

  /** Whether a tick without a shutdown request goes on to evaluate the state. */
  predicate Admits(g: Gate, observedAt: int) {
    g.Pending? ==> observedAt > g.since
  }

  function After(g: Gate, observedAt: int, acts: bool): Gate {
    if !Admits(g, observedAt) then g else if acts then Pending(observedAt) else Open
  }

  /** A tick that got past the freshness gate: the observation it read, and whether the state, once
      evaluated, enqueues an action. */
  datatype Tick = Tick(observedAt: int, acts: bool)

  function Run(g: Gate, ticks: seq<Tick>): Gate {
    if ticks == [] then g
    else
      var last := ticks[|ticks| - 1];
      After(Run(g, ticks[..|ticks| - 1]), last.observedAt, last.acts)
  }

  predicate EvaluatedAt(g: Gate, ticks: seq<Tick>, i: nat)
    requires i < |ticks|
  {
    Admits(Run(g, ticks[..i]), ticks[i].observedAt)
  }

  predicate EnqueuedAt(g: Gate, ticks: seq<Tick>, i: nat)
    requires i < |ticks|
  {
    EvaluatedAt(g, ticks, i) && ticks[i].acts
  }

  lemma RunStep(g: Gate, ticks: seq<Tick>, i: nat)
    requires i < |ticks|
    ensures Run(g, ticks[..i + 1]) == After(Run(g, ticks[..i]), ticks[i].observedAt, ticks[i].acts)
  {
    assert ticks[..i + 1][..i] == ticks[..i];
  }

  /** A pending action stays pending until an observation newer than its own is read. */
  lemma {:induction false} PendingUntilNewer(g: Gate, ticks: seq<Tick>, i: nat, j: nat)
    requires i < j <= |ticks| && EnqueuedAt(g, ticks, i)
    requires forall k :: i < k < j ==> ticks[k].observedAt <= ticks[i].observedAt
    ensures Run(g, ticks[..j]) == Pending(ticks[i].observedAt)
  {
    RunStep(g, ticks, j - 1);
    if i < j - 1 {
      PendingUntilNewer(g, ticks, i, j - 1);
    }
  }

  /** The state is not evaluated again before an observation newer than the one that justified the
      action has been read, whatever order observations arrive in. */
  lemma NotAgainBeforeNews(g: Gate, ticks: seq<Tick>, i: nat, j: nat)
    requires i < j < |ticks| && EnqueuedAt(g, ticks, i) && EvaluatedAt(g, ticks, j)
    ensures exists k :: i < k <= j && ticks[k].observedAt > ticks[i].observedAt
  {
    if forall k :: i < k < j ==> ticks[k].observedAt <= ticks[i].observedAt {
      PendingUntilNewer(g, ticks, i, j);
    }
  }

  // ----- When the enqueued timestamps strictly increase -----

  ghost predicate Increasing(g: Gate, ticks: seq<Tick>) {
    forall i, j :: 0 <= i < j < |ticks| && EnqueuedAt(g, ticks, i) && EnqueuedAt(g, ticks, j)
      ==> ticks[i].observedAt < ticks[j].observedAt
  }

  /** The observations rise above `i`'s and then fall back to it or below. */
  predicate FallsBack(obs: seq<int>, i: nat, k: nat, j: nat)
    requires i < k < j < |obs|
  {
    obs[i] < obs[k] && obs[j] <= obs[i]
  }

  ghost predicate NeverFallsBack(obs: seq<int>) {
    forall i: nat, k: nat, j: nat :: i < k < j < |obs| ==> !FallsBack(obs, i, k, j)
  }

  function Observations(ticks: seq<Tick>): (obs: seq<int>)
    ensures |obs| == |ticks| && forall i :: 0 <= i < |ticks| ==> obs[i] == ticks[i].observedAt
  {
    if ticks == [] then [] else Observations(ticks[..|ticks| - 1]) + [ticks[|ticks| - 1].observedAt]
  }

  lemma SteadyObservationsIncrease(g: Gate, ticks: seq<Tick>)
    requires NeverFallsBack(Observations(ticks))
    ensures Increasing(g, ticks)
  {
    var obs := Observations(ticks);
    forall i, j | 0 <= i < j < |ticks| && EnqueuedAt(g, ticks, i) && EnqueuedAt(g, ticks, j)
      ensures ticks[i].observedAt < ticks[j].observedAt
    {
      NotAgainBeforeNews(g, ticks, i, j);
      var k :| i < k <= j && ticks[k].observedAt > ticks[i].observedAt;
      if k < j {
        assert !FallsBack(obs, i, k, j);
      }
    }
  }

  /** Acting at exactly two of the ticks. */
  function ActingAt(obs: seq<int>, i: nat, j: nat): seq<Tick> {
    seq(|obs|, n requires 0 <= n < |obs| => Tick(obs[n], n == i || n == j))
  }

  lemma {:induction false} IdleStaysOpen(ticks: seq<Tick>, i: nat)
    requires i <= |ticks| && forall n :: 0 <= n < i ==> !ticks[n].acts
    ensures Run(Open, ticks[..i]) == Open
  {
    if i > 0 {
      IdleStaysOpen(ticks, i - 1);
      RunStep(Open, ticks, i - 1);
    }
  }

  lemma {:induction false} ClearedOnceNewer(ticks: seq<Tick>, i: nat, k: nat, j: nat)
    requires i < k < j <= |ticks| && EnqueuedAt(Open, ticks, i) && ticks[k].observedAt > ticks[i].observedAt
    requires forall n :: i < n < j ==> !ticks[n].acts
    ensures Run(Open, ticks[..j]) == Open
  {
    RunStep(Open, ticks, j - 1);
    if k < j - 1 {
      ClearedOnceNewer(ticks, i, k, j - 1);
    } else {
      StillOrCleared(ticks, i, j - 1);
    }
  }

  lemma {:induction false} StillOrCleared(ticks: seq<Tick>, i: nat, j: nat)
    requires i < j <= |ticks| && EnqueuedAt(Open, ticks, i) && forall n :: i < n < j ==> !ticks[n].acts
    ensures Run(Open, ticks[..j]) in {Open, Pending(ticks[i].observedAt)}
  {
    RunStep(Open, ticks, j - 1);
    if i < j - 1 {
      StillOrCleared(ticks, i, j - 1);
    }
  }

  lemma FallingBackRepeats(obs: seq<int>, i: nat, k: nat, j: nat)
    requires i < k < j < |obs| && FallsBack(obs, i, k, j)
    ensures !Increasing(Open, ActingAt(obs, i, j))
  {
    var ticks := ActingAt(obs, i, j);
    IdleStaysOpen(ticks, i);
    assert EnqueuedAt(Open, ticks, i);
    ClearedOnceNewer(ticks, i, k, j);
    assert EnqueuedAt(Open, ticks, j);
  }

  /** What the state machine asks for is arbitrary. The instants of the observations that actions
      were enqueued on strictly increase, whatever it asks for, exactly when the observations read
      never fall back to an instant they had already risen above. */
  lemma IncreasingExactlyWhenSteady(obs: seq<int>)
    ensures (forall ticks :: Observations(ticks) == obs ==> Increasing(Open, ticks)) <==> NeverFallsBack(obs)
  {
    if NeverFallsBack(obs) {
      forall ticks | Observations(ticks) == obs ensures Increasing(Open, ticks) {
        SteadyObservationsIncrease(Open, ticks);
      }
    } else {
      var i: nat, k: nat, j: nat :| i < k < j < |obs| && FallsBack(obs, i, k, j);
      FallingBackRepeats(obs, i, k, j);
      assert Observations(ActingAt(obs, i, j)) == obs;
    }
  }

  ghost predicate NonDecreasing(obs: seq<int>) {
    forall i, j :: 0 <= i <= j < |obs| ==> obs[i] <= obs[j]
  }

  /** A store that never goes back is steady. */
  lemma NonDecreasingIsSteady(obs: seq<int>)
    requires NonDecreasing(obs)
    ensures NeverFallsBack(obs)
  {
  }
}
