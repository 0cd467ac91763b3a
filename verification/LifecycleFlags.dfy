/** The stored lifecycle flags under concurrent writers (supervisor/reconciliation.go,
    supervisor/lifecycle.go, supervisor/config_error.go). The store replaces whole documents;
    every load-modify-save holds one mutex. Loads and saves are separate steps that may fail,
    and any number of threads interleave. */
module LifecycleFlags {

  datatype Option<T> = None | Some(value: T)

  type Id = string
  type Thread = nat

  /** A stored desired state: the two lifecycle flags and the rest. */
  datatype Doc<T> = Doc(shutdown: bool, disabled: bool, body: T)

  type Store<T> = map<Id, Doc<T>>

  /** The operations that read, and mostly write, a worker's desired document. */
  datatype Op<T> =
    | RequestShutdown
    | SetDisabled(v: bool)
    | ClearShutdown
    | SaveDerived(derived: Doc<T>)
    | LoadFlags

  function Lookup<T>(store: Store<T>, id: Id): Option<Doc<T>> {
    if id in store then Some(store[id]) else None
  }

  /** Whether an operation that read `d` goes on to save. A setter leaves a missing document alone. */
  predicate Saves<T>(op: Op<T>, d: Option<Doc<T>>) {
    match op
    case SaveDerived(_) => true
    case LoadFlags => false
    case _ => d.Some?
  }

  /** The document an operation saves after reading `d`. */
  function Written<T>(op: Op<T>, d: Option<Doc<T>>): Doc<T>
    requires Saves(op, d)
  {
    match op
    case RequestShutdown => d.value.(shutdown := true)
    case SetDisabled(v) => d.value.(disabled := v)
    case ClearShutdown => d.value.(shutdown := false)
    case SaveDerived(derived) =>
      if d.None? then derived
      else derived.(shutdown := derived.shutdown || d.value.shutdown, disabled := derived.disabled || d.value.disabled)
  }

  // ----- The operations, sequentially -----

  /** What one whole operation does when nothing interleaves. */
  function Performed<T>(store: Store<T>, op: Op<T>, id: Id, loadOk: bool, saveOk: bool): Store<T> {
    var d := Lookup(store, id);
    if loadOk && Saves(op, d) && saveOk then store[id := Written(op, d)] else store
  }

  datatype Status = Done | Failed

  class DesiredStore<T> {
    var docs: Store<T>
    var workers: set<Id>

    constructor ()
      ensures docs == map[] && workers == {}
    {
      docs, workers := map[], {};
    }

    /** `requestShutdown`; the two booleans are what the store answers. */
    method RequestShutdownOf(id: Id, loadOk: bool, saveOk: bool) returns (status: Status)
      modifies this`docs
      ensures docs == if id in workers then Performed(old(docs), RequestShutdown, id, loadOk, saveOk) else old(docs)
      ensures status == Done && id in docs ==> docs[id].shutdown
    {
      if id !in workers { return Failed; }
      if !loadOk { return Failed; }
      if id !in docs { return Done; }
      var desired := docs[id].(shutdown := true);
      if !saveOk { return Failed; }
      docs := docs[id := desired];
      return Done;
    }

    method SetDisabledOf(id: Id, v: bool, loadOk: bool, saveOk: bool) returns (status: Status)
      modifies this`docs
      ensures docs == if id in workers then Performed(old(docs), SetDisabled(v), id, loadOk, saveOk) else old(docs)
      ensures status == Done && id in docs ==> docs[id].disabled == v
    {
      if id !in workers { return Failed; }
      if !loadOk { return Failed; }
      if id !in docs { return Done; }
      var desired := docs[id].(disabled := v);
      if !saveOk { return Failed; }
      docs := docs[id := desired];
      return Done;
    }

    /** Unlike the other setters this one does not ask whether the worker is registered, and a
        missing document is an error. */
    method ClearShutdownOf(id: Id, loadOk: bool, saveOk: bool) returns (status: Status)
      modifies this`docs
      ensures docs == Performed(old(docs), ClearShutdown, id, loadOk, saveOk)
      ensures status == Done ==> id in docs && !docs[id].shutdown
    {
      if !loadOk || id !in docs { return Failed; }
      var desired := docs[id].(shutdown := false);
      if !saveOk { return Failed; }
      docs := docs[id := desired];
      return Done;
    }

    /** The per-tick save of a derived state. The returned document is what the tick goes on to
        read; a failed read or save leaves the store alone and does not fail the tick. */
    method SaveDerivedOf(id: Id, derived: Doc<T>, loadOk: bool, saveOk: bool) returns (doc: Doc<T>)
      modifies this`docs
      ensures docs == Performed(old(docs), SaveDerived(derived), id, loadOk, saveOk)
      ensures doc == if loadOk then Written(SaveDerived(derived), Lookup(old(docs), id)) else derived
    {
      doc := derived;
      if !loadOk { return; }
      var shutdown, disabled := id in docs && docs[id].shutdown, id in docs && docs[id].disabled;
      if shutdown { doc := doc.(shutdown := true); }
      if disabled { doc := doc.(disabled := true); }
      if saveOk { docs := docs[id := doc]; }
    }
  }

  // ----- The interleaved machine -----

  /** Where a thread is inside an operation. */
  datatype Pc<T> =
    | Idle
    | Waiting(op: Op<T>, id: Id)
    | Holding(op: Op<T>, id: Id)
    | Loaded(op: Op<T>, id: Id, doc: Option<Doc<T>>)
    | Leaving

  /** A committed save, in commit order. */
  datatype Entry<T> = Entry(op: Op<T>, id: Id)

  datatype Machine<T> = Machine(
    store: Store<T>,
    holder: Option<Thread>,
    threads: map<Thread, Pc<T>>,
    log: seq<Entry<T>>)

  datatype Step<T> =
    | Begin(t: Thread, op: Op<T>, id: Id)
    | Acquire(t: Thread)
    | Load(t: Thread, ok: bool)
    | Save(t: Thread, ok: bool)
    | Release(t: Thread)

  function At<T>(m: Machine<T>, t: Thread): Pc<T> {
    if t in m.threads then m.threads[t] else Idle
  }

  /** `locked` says whether the mutex is there at all. */
  predicate Enabled<T>(m: Machine<T>, s: Step<T>, locked: bool) {
    match s
    case Begin(t, op, id) => At(m, t).Idle?
    case Acquire(t) => At(m, t).Waiting? && (locked ==> m.holder.None?)
    case Load(t, ok) => At(m, t).Holding?
    case Save(t, ok) => At(m, t).Loaded?
    case Release(t) => At(m, t).Leaving?
  }

  predicate Safe<T>(m: Machine<T>) {
    forall t :: t in m.threads && m.threads[t].Loaded? ==> Saves(m.threads[t].op, m.threads[t].doc)
  }

  function Take<T>(m: Machine<T>, s: Step<T>): Machine<T>
    requires Enabled(m, s, false) && Safe(m)
  {
    match s
    case Begin(t, op, id) => m.(threads := m.threads[t := Waiting(op, id)])
    case Acquire(t) =>
      m.(holder := Some(t), threads := m.threads[t := Holding(At(m, t).op, At(m, t).id)])
    case Load(t, ok) =>
      var op, id := At(m, t).op, At(m, t).id;
      var d := Lookup(m.store, id);
      m.(threads := m.threads[t := if ok && Saves(op, d) then Loaded(op, id, d) else Leaving])
    case Save(t, ok) =>
      var pc := At(m, t);
      var left := m.(threads := m.threads[t := Leaving]);
      if ok then left.(store := m.store[pc.id := Written(pc.op, pc.doc)], log := m.log + [Entry(pc.op, pc.id)])
      else left
    case Release(t) => m.(holder := None, threads := m.threads[t := Idle])
  }

  /** A run: each step enabled when it is taken. */
  ghost predicate Runs<T>(m: Machine<T>, steps: seq<Step<T>>, m': Machine<T>, locked: bool)
    decreases |steps|
  {
    if steps == [] then m == m'
    else Safe(m) && Enabled(m, steps[0], locked) && Enabled(m, steps[0], false)
         && Runs(Take(m, steps[0]), steps[1..], m', locked)
  }

  // ----- Serializability -----

  /** The log replayed one whole operation after another. */
  function Replay<T>(store: Store<T>, log: seq<Entry<T>>): Store<T> {
    if log == [] then store
    else
      var e := log[|log| - 1];
      Performed(Replay(store, log[..|log| - 1]), e.op, e.id, true, true)
  }

  ghost predicate Inside<T>(pc: Pc<T>) {
    pc.Holding? || pc.Loaded? || pc.Leaving?
  }

  /** Only the holder is inside, what it loaded is still what is stored, and the store is what
      replaying the commits gives. */
  ghost predicate Inv<T>(init: Store<T>, m: Machine<T>) {
    && Safe(m)
    && (forall t :: t in m.threads && Inside(m.threads[t]) ==> m.holder == Some(t))
    && (forall t :: t in m.threads && m.threads[t].Loaded? ==> m.threads[t].doc == Lookup(m.store, m.threads[t].id))
    && m.store == Replay(init, m.log)
  }

  lemma StepKeepsInv<T>(init: Store<T>, m: Machine<T>, s: Step<T>)
    requires Inv(init, m) && Enabled(m, s, true)
    ensures Inv(init, Take(m, s))
  {
    if s.Save? && s.ok {
      assert Take(m, s).log[..|m.log|] == m.log;
    }
  }

  lemma {:induction false} RunKeepsInv<T>(init: Store<T>, m: Machine<T>, steps: seq<Step<T>>, m': Machine<T>)
    requires Inv(init, m) && Runs(m, steps, m', true)
    ensures Inv(init, m')
    decreases |steps|
  {
    if steps != [] {
      StepKeepsInv(init, m, steps[0]);
      RunKeepsInv(init, Take(m, steps[0]), steps[1..], m');
    }
  }

  // ----- Who owns the flags -----

  function Shutdown<T>(store: Store<T>, id: Id): bool { id in store && store[id].shutdown }

  function Disabled<T>(store: Store<T>, id: Id): bool { id in store && store[id].disabled }

  /** The value the last committed setter of the flag gave it, or `initial` if none committed. */
  function LastShutdown<T>(log: seq<Entry<T>>, id: Id, initial: bool): bool {
    if log == [] then initial
    else
      var e := log[|log| - 1];
      if e.id == id && e.op.RequestShutdown? then true
      else if e.id == id && e.op.ClearShutdown? then false
      else LastShutdown(log[..|log| - 1], id, initial)
  }

  function LastDisabled<T>(log: seq<Entry<T>>, id: Id, initial: bool): bool {
    if log == [] then initial
    else
      var e := log[|log| - 1];
      if e.id == id && e.op.SetDisabled? then e.op.v
      else LastDisabled(log[..|log| - 1], id, initial)
  }

  /** Every commit in the log could be replayed: a setter's document was there. */
  ghost predicate Replayable<T>(init: Store<T>, log: seq<Entry<T>>) {
    log == [] ||
    var before, e := log[..|log| - 1], log[|log| - 1];
    Replayable(init, before) && Saves(e.op, Lookup(Replay(init, before), e.id))
  }

  ghost predicate DerivesClean<T>(log: seq<Entry<T>>) {
    forall i :: 0 <= i < |log| && log[i].op.SaveDerived? ==> !log[i].op.derived.shutdown && !log[i].op.derived.disabled
  }

  lemma {:induction false} FlagsOfReplay<T>(init: Store<T>, log: seq<Entry<T>>, id: Id)
    requires Replayable(init, log) && DerivesClean(log)
    ensures Shutdown(Replay(init, log), id) == LastShutdown(log, id, Shutdown(init, id))
    ensures Disabled(Replay(init, log), id) == LastDisabled(log, id, Disabled(init, id))
  {
    if log != [] {
      var before, e := log[..|log| - 1], log[|log| - 1];
      FlagsOfReplay(init, before, id);
      assert e == log[|log| - 1];
    }
  }

  lemma OneMoreReplayable<T>(init: Store<T>, log: seq<Entry<T>>, e: Entry<T>)
    requires Replayable(init, log) && Saves(e.op, Lookup(Replay(init, log), e.id))
    ensures Replayable(init, log + [e])
  {
    assert (log + [e])[..|log|] == log;
  }

  lemma StepIsReplayable<T>(init: Store<T>, m: Machine<T>, s: Step<T>)
    requires Inv(init, m) && Replayable(init, m.log) && Enabled(m, s, true)
    ensures Replayable(init, Take(m, s).log)
  {
    if s.Save? && s.ok { OneMoreReplayable(init, m.log, Entry(At(m, s.t).op, At(m, s.t).id)); }
  }

  lemma {:induction false} RunIsReplayable<T>(init: Store<T>, m: Machine<T>, steps: seq<Step<T>>, m': Machine<T>)
    requires Inv(init, m) && Replayable(init, m.log) && Runs(m, steps, m', true)
    ensures Replayable(init, m'.log)
    decreases |steps|
  {
    if steps != [] {
      StepKeepsInv(init, m, steps[0]);
      StepIsReplayable(init, m, steps[0]);
      RunIsReplayable(init, Take(m, steps[0]), steps[1..], m');
    }
  }

  function Fresh<T>(store: Store<T>): Machine<T> {
    Machine(store, None, map[], [])
  }

  /** In every interleaving of derives and setters, with any reads and saves failing, the stored
      document is what the commits give one after another, and each flag is what its last committed
      setter made it: derives never change either. Derived states carry neither flag, as the
      supervisor says workers re-derive them. */
  lemma FlagsBelongToTheirSetters<T>(store: Store<T>, steps: seq<Step<T>>, m: Machine<T>, id: Id)
    requires Runs(Fresh(store), steps, m, true) && DerivesClean(m.log)
    ensures m.store == Replay(store, m.log)
    ensures Shutdown(m.store, id) == LastShutdown(m.log, id, Shutdown(store, id))
    ensures Disabled(m.store, id) == LastDisabled(m.log, id, Disabled(store, id))
  {
    RunKeepsInv(store, Fresh(store), steps, m);
    RunIsReplayable(store, Fresh(store), steps, m);
    FlagsOfReplay(store, m.log, id);
  }

  /** Exactly when a committed derive leaves the flags alone: it brings neither that was not set. */
  lemma DeriveKeepsFlagsExactlyWhenClean<T>(store: Store<T>, id: Id, derived: Doc<T>)
    ensures var after := Performed(store, SaveDerived(derived), id, true, true);
            (Shutdown(after, id) == Shutdown(store, id) && Disabled(after, id) == Disabled(store, id))
            <==> (derived.shutdown ==> Shutdown(store, id)) && (derived.disabled ==> Disabled(store, id))
  {
  }

  lemma OneMore<T>(m: Machine<T>, s: Step<T>, rest: seq<Step<T>>, m': Machine<T>, locked: bool)
    requires Safe(m) && Enabled(m, s, locked) && Enabled(m, s, false) && Runs(Take(m, s), rest, m', locked)
    ensures Runs(m, [s] + rest, m', locked)
  {
    assert ([s] + rest)[1..] == rest;
  }

  /** Both operations are inside at once, which only a missing mutex allows. */
  function BothInside(): Machine<int> {
    Machine(map["w" := Doc(false, false, 0)], Some(2),
      map[1 := Holding(SaveDerived(Doc(false, false, 1)), "w"), 2 := Holding(RequestShutdown, "w")], [])
  }

  /** Both wait for a lock that nobody keeps. */
  function BothWaiting(): Machine<int> {
    Machine(map["w" := Doc(false, false, 0)], None,
      map[1 := Waiting(SaveDerived(Doc(false, false, 1)), "w"), 2 := Waiting(RequestShutdown, "w")], [])
  }

  lemma BothBegin(rest: seq<Step<int>>, m': Machine<int>)
    requires Runs(BothWaiting(), rest, m', false)
    ensures Runs(Fresh(map["w" := Doc(false, false, 0)]),
                 [Begin(1, SaveDerived(Doc(false, false, 1)), "w")] + ([Begin(2, RequestShutdown, "w")] + rest), m', false)
  {
    var m0: Machine<int> := Fresh(map["w" := Doc(false, false, 0)]);
    var m1 := Take(m0, Begin(1, SaveDerived(Doc(false, false, 1)), "w"));
    assert Take(m1, Begin(2, RequestShutdown, "w")) == BothWaiting();
    OneMore(m1, Begin(2, RequestShutdown, "w"), rest, m', false);
    OneMore(m0, Begin(1, SaveDerived(Doc(false, false, 1)), "w"), [Begin(2, RequestShutdown, "w")] + rest, m', false);
  }

  lemma BothAcquire(rest: seq<Step<int>>, m': Machine<int>)
    requires Runs(BothInside(), rest, m', false)
    ensures Runs(BothWaiting(), [Acquire(1)] + ([Acquire(2)] + rest), m', false)
  {
    var m1 := Take(BothWaiting(), Acquire(1));
    assert Take(m1, Acquire(2)) == BothInside();
    OneMore(m1, Acquire(2), rest, m', false);
    OneMore(BothWaiting(), Acquire(1), [Acquire(2)] + rest, m', false);
  }

  lemma TheDeriveCommitsLast() returns (rest: seq<Step<int>>, m: Machine<int>)
    ensures Runs(BothInside(), rest, m, false)
    ensures m.log == [Entry(RequestShutdown, "w"), Entry(SaveDerived(Doc(false, false, 1)), "w")]
    ensures !Shutdown(m.store, "w")
  {
    var m1 := Take(BothInside(), Load(1, true));
    var m2 := Take(m1, Load(2, true));
    var m3 := Take(m2, Save(2, true));
    m := Take(m3, Save(1, true));
    OneMore(m3, Save(1, true), [], m, false);
    OneMore(m2, Save(2, true), [Save(1, true)] + [], m, false);
    OneMore(m1, Load(2, true), [Save(2, true)] + ([Save(1, true)] + []), m, false);
    rest := [Load(2, true)] + ([Save(2, true)] + ([Save(1, true)] + []));
    OneMore(BothInside(), Load(1, true), rest, m, false);
    rest := [Load(1, true)] + rest;
  }

  /** The mutex is what does it: without it, a derive that loaded before a shutdown request
      commits after it and wipes the request. */
  lemma WithoutTheMutexARequestIsLost() returns (steps: seq<Step<int>>, m: Machine<int>)
    ensures Runs(Fresh(map["w" := Doc(false, false, 0)]), steps, m, false)
    ensures DerivesClean(m.log)
    ensures LastShutdown(m.log, "w", false) && !Shutdown(m.store, "w")
  {
    var rest;
    rest, m := TheDeriveCommitsLast();
    BothAcquire(rest, m);
    BothBegin([Acquire(1)] + ([Acquire(2)] + rest), m);
    steps := [Begin(1, SaveDerived(Doc(false, false, 1)), "w")]
             + ([Begin(2, RequestShutdown, "w")] + ([Acquire(1)] + ([Acquire(2)] + rest)));
    assert m.log[..1] == [Entry(RequestShutdown, "w")];
  }
}
