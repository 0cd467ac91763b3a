/** A simple monitor worker (simple/state.go) under the supervisor's ticks and the stored lifecycle
    flags: how a stop reaches it, and that nothing else removes it. */
module SimpleWorker {
  import opened LifecycleFlags
  import opened CollectorHealth
  import TW = TickWorker

  datatype State = Running | Degraded | Stopped

  function ShouldStop(shutdown: bool, disabled: bool): bool { shutdown || disabled }

  /** The three Next functions; `degraded` is the verdict the worker stored. */
  function Answer(s: State, degraded: bool, shutdown: bool, disabled: bool): TW.Answer<State> {
    match s
    case Running =>
      if ShouldStop(shutdown, disabled) then Go(Stopped) else if degraded then Go(Degraded) else Go(Running)
    case Degraded =>
      if ShouldStop(shutdown, disabled) then Go(Stopped) else if !degraded then Go(Running) else Go(Degraded)
    case Stopped =>
      if ShouldStop(shutdown, disabled) then TW.Answer(Stopped, if shutdown then TW.NeedsRemoval else TW.NoSignal, TW.None)
      else Go(Running)
  }

  function Go(s: State): TW.Answer<State> { TW.Answer(s, TW.NoSignal, TW.None) }

  function Machine(): TW.Machine<State, bool> { Answer }

  /** The stored documents and this worker's context. */
  datatype World<T> = World(store: Store<T>, worker: TW.Ticking<State>)

  /** What can happen, one lock at a time: any operation on any document, by any goroutine, with
      reads and saves that may fail; the reset of a worker whose restart took too long; and a tick
      of this worker, which reads the flags stored by then. Derive saves, or their absence on a tick
      that runs on the last good config, are operations like any other. */
  datatype Move<T> =
    | Operation(op: Op<T>, target: Id, loads: bool, saves: bool)
    | ForceReset
    | Tick(loads: bool, now: int, observedAt: int, degraded: bool)

  function InputOf<T>(store: Store<T>, id: Id, m: Move<T>): TW.Input<bool>
    requires m.Tick?
  {
    TW.Input(m.loads, Look(m.now, m.observedAt, Shutdown(store, id)), m.degraded, Disabled(store, id), false, true)
  }

  function Moved<T>(t: Thresholds, id: Id, w: World<T>, m: Move<T>): World<T> {
    match m
    case Operation(op, target, loads, saves) => w.(store := Performed(w.store, op, target, loads, saves))
    case ForceReset => w.(worker := w.worker.(state := TW.Some(Degraded)))
    case Tick(_, _, _, _) => w.(worker := TW.Tick(t, Machine(), w.worker, InputOf(w.store, id, m)).0)
  }

  function Run<T>(t: Thresholds, id: Id, w: World<T>, moves: seq<Move<T>>): World<T> {
    if moves == [] then w else Moved(t, id, Run(t, id, w, moves[..|moves| - 1]), moves[|moves| - 1])
  }

  function SignalAt<T>(t: Thresholds, id: Id, w: World<T>, moves: seq<Move<T>>, i: nat): TW.Effect
    requires i < |moves| && moves[i].Tick?
  {
    var at := Run(t, id, w, moves[..i]);
    TW.Tick(t, Machine(), at.worker, InputOf(at.store, id, moves[i])).1
  }

  /** Nobody withdraws the request of this worker. */
  ghost predicate Unwithdrawn<T>(id: Id, moves: seq<Move<T>>) {
    forall i :: 0 <= i < |moves| ==> !(moves[i].Operation? && moves[i].op.ClearShutdown? && moves[i].target == id)
  }

  predicate Reaches<T>(m: Move<T>) { m.Tick? && m.loads }

  lemma RunStep<T>(t: Thresholds, id: Id, w: World<T>, moves: seq<Move<T>>, i: nat)
    requires i < |moves|
    ensures Run(t, id, w, moves[..i + 1]) == Moved(t, id, Run(t, id, w, moves[..i]), moves[i])
  {
    assert moves[..i + 1][..i] == moves[..i];
  }

  /** Once stored, a request stays stored through derives, disables and failing writes, and the
      worker keeps having a state. */
  lemma {:induction false} RequestStays<T>(t: Thresholds, id: Id, w: World<T>, moves: seq<Move<T>>, i: nat)
    requires i <= |moves| && Unwithdrawn(id, moves) && Shutdown(w.store, id) && w.worker.state.Some?
    ensures var at := Run(t, id, w, moves[..i]); Shutdown(at.store, id) && at.worker.state.Some?
  {
    if i > 0 {
      RequestStays(t, id, w, moves, i - 1);
      RunStep(t, id, w, moves, i - 1);
    }
  }

  lemma RequestedTick(t: Thresholds, w: TW.Ticking<State>, i: TW.Input<bool>)
    requires i.loads && i.look.shutdown && w.state.Some?
    ensures TW.Tick(t, Machine(), w, i).0.state == TW.Some(Stopped)
    ensures TW.Tick(t, Machine(), w, i).1
            == TW.Finished(if w.state == TW.Some(Stopped) then TW.NeedsRemoval else TW.NoSignal, false)
  {
  }

  /** After one tick that reaches the worker it is stopped, and stays so until a forced reset. */
  lemma {:induction false} StoppedAfterOne<T>(t: Thresholds, id: Id, w: World<T>, moves: seq<Move<T>>, i: nat, j: nat)
    requires i < j <= |moves| && Unwithdrawn(id, moves) && Shutdown(w.store, id) && w.worker.state.Some?
    requires Reaches(moves[i]) && forall k :: i < k < j ==> !moves[k].ForceReset?
    ensures Run(t, id, w, moves[..j]).worker.state == TW.Some(Stopped)
  {
    var at := Run(t, id, w, moves[..j - 1]);
    RequestStays(t, id, w, moves, j - 1);
    RunStep(t, id, w, moves, j - 1);
    if i < j - 1 { StoppedAfterOne(t, id, w, moves, i, j - 1); }
    if Reaches(moves[j - 1]) { RequestedTick(t, at.worker, InputOf(at.store, id, moves[j - 1])); }
  }

  /** Bounded graceful stop. Once the request is stored, of any two ticks that reach the worker with
      no forced reset between them the second signals its removal, whatever the observation's age,
      the verdict, the disable flag, the gates or the derives in between. */
  lemma TwoTicksToRemoval<T>(t: Thresholds, id: Id, w: World<T>, moves: seq<Move<T>>, i: nat, j: nat)
    requires i < j < |moves| && Unwithdrawn(id, moves) && Shutdown(w.store, id) && w.worker.state.Some?
    requires Reaches(moves[i]) && Reaches(moves[j]) && forall k :: i < k < j ==> !moves[k].ForceReset?
    ensures SignalAt(t, id, w, moves, j) == TW.Finished(TW.NeedsRemoval, false)
  {
    StoppedAfterOne(t, id, w, moves, i, j);
    RequestStays(t, id, w, moves, j);
    var at := Run(t, id, w, moves[..j]);
    RequestedTick(t, at.worker, InputOf(at.store, id, moves[j]));
  }

  /** Removal is never signalled without the stored request. */
  lemma NoRemovalWithoutRequest<T>(t: Thresholds, id: Id, w: World<T>, moves: seq<Move<T>>, i: nat)
    requires i < |moves| && moves[i].Tick?
    requires SignalAt(t, id, w, moves, i).Finished? && SignalAt(t, id, w, moves, i).signal == TW.NeedsRemoval
    ensures Shutdown(Run(t, id, w, moves[..i]).store, id)
  {
  }

  /** A collector that stays silent past its last restart ends in removal: the timed-out tick asks
      for a shutdown, and the second tick after that which reaches the worker signals it. */
  lemma SilentCollectorEndsInRemoval<T>(
    t: Thresholds, id: Id, w: World<T>, first: Move<T>, moves: seq<Move<T>>, i: nat, j: nat)
    requires Accepted(t) && id in w.store && w.worker.state.Some?
    requires Reaches(first) && !Shutdown(w.store, id)
    requires w.worker.health.restarts == t.maxRestarts && first.now - first.observedAt >= t.timeout
    requires i < j < |moves| && Unwithdrawn(id, moves)
    requires Reaches(moves[i]) && Reaches(moves[j]) && forall k :: i < k < j ==> !moves[k].ForceReset?
    ensures TW.Tick(t, Machine(), w.worker, InputOf(w.store, id, first)).1 == TW.Held(Escalate)
    ensures var asked := Moved(t, id, Moved(t, id, w, first), Operation(RequestShutdown, id, true, true));
            SignalAt(t, id, asked, moves, j) == TW.Finished(TW.NeedsRemoval, false)
  {
    var asked := Moved(t, id, Moved(t, id, w, first), Operation(RequestShutdown, id, true, true));
    TwoTicksToRemoval(t, id, asked, moves, i, j);
  }
}
