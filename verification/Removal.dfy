/** Removing a worker while the same id is added again and while Shutdown drains
    (supervisor/reconciliation.go processSignal, supervisor/api.go AddWorker and
    RemoveWorkerForRestart, supervisor/lifecycle.go Shutdown). One step is one critical section
    under the supervisor's lock, or one action outside it; one goroutine ticks, any number add. */
module Removal {

  type Id = string

  // ----- The critical sections on the registry -----

  /** The registered workers, those among them being removed, and the tombstoned documents. */
  datatype Book = Book(workers: set<Id>, removing: set<Id>, tombs: set<Id>)

  function Entered(b: Book, id: Id, stored: bool): Book {
    if id in b.workers || !stored then b else b.(workers := b.workers + {id}, tombs := b.tombs - {id})
  }

  function MarkedIn(b: Book, id: Id, written: bool): Book {
    b.(removing := b.removing + {id}, tombs := if written then b.tombs + {id} else b.tombs)
  }

  function Struck(b: Book, id: Id): Book {
    b.(workers := b.workers - {id}, removing := b.removing - {id})
  }

  function Detached(b: Book, id: Id): Book {
    b.(workers := b.workers - {id})
  }

  datatype Outcome = Done | Refused | Failed

  class Registry {
    var workers: set<Id>
    var removing: set<Id>
    var tombs: set<Id>

    function Now(): Book
      reads this
    {
      Book(workers, removing, tombs)
    }

    /** A worker being removed is still registered, and only such a worker has a tombstone. */
    ghost predicate Valid()
      reads this
    {
      removing <= workers && forall w :: w in workers && w in tombs ==> w in removing
    }

    /** Whatever tombstones earlier runs left. */
    constructor (tombs: set<Id>)
      ensures Valid() && Now() == Book({}, {}, tombs)
    {
      workers, removing, this.tombs := {}, {}, tombs;
    }

    /** `AddWorker` from where it holds the lock with no removal of this id under way. `saved` and
        `cleared` say whether the writes before the tombstone is cleared, and the clearing, succeed. */
    method AddWorker(id: Id, saved: bool, cleared: bool) returns (outcome: Outcome)
      requires Valid() && id !in removing
      modifies this
      ensures Valid() && Now() == Entered(old(Now()), id, saved && cleared)
      ensures outcome == if id in old(workers) then Refused else if saved && cleared then Done else Failed
      ensures outcome == Done ==> id in workers && id !in tombs
    {
      if id in workers { return Refused; }
      if !saved { return Failed; }
      if !cleared { return Failed; }
      tombs := tombs - {id};
      workers := workers + {id};
      return Done;
    }

    /** The first section of a removal: the tombstone is written while the id is registered. */
    method BeginRemoval(id: Id, written: bool) returns (outcome: Outcome)
      requires Valid()
      modifies this
      ensures Valid() && outcome == if id in old(workers) then Done else Refused
      ensures Now() == if outcome == Done then MarkedIn(old(Now()), id, written) else old(Now())
    {
      if id !in workers { return Refused; }
      if written { tombs := tombs + {id}; }
      removing := removing + {id};
      return Done;
    }

    /** The last section: only now does the worker leave the registry. */
    method FinishRemoval(id: Id)
      requires Valid() && id in removing
      modifies this`workers, this`removing
      ensures Valid() && Now() == Struck(old(Now()), id)
    {
      workers := workers - {id};
      removing := removing - {id};
    }

    /** Nothing here asks whether the id is being removed, so the registry stays valid exactly when
        the caller sees to it that it is not. */
    method RemoveWorkerForRestart(id: Id) returns (outcome: Outcome)
      requires Valid()
      modifies this`workers
      ensures Now() == Detached(old(Now()), id) && (Valid() <==> id !in old(removing))
      ensures outcome == if id in old(workers) then Done else Refused
    {
      if id !in workers { return Refused; }
      workers := workers - {id};
      return Done;
    }
  }

  // ----- The protocol -----

  /** Where the tick goroutine is in a removal; `marked` says whether the tombstone was written. */
  datatype Tick = Idle | Marked(id: Id, marked: bool) | Observed(id: Id, marked: bool)

  /** Where Shutdown is. */
  datatype Drain = NotStarted | Draining | SawEmpty | GaveUp | Cancelled

  datatype Event =
    | Added(id: Id)
    | Began(id: Id)
    | FinalObservation(id: Id, live: bool)
    | Left(id: Id)
    | SeenEmpty
    | Cancel

  datatype State = State(book: Book, tick: Tick, drain: Drain, log: seq<Event>)

  datatype Step =
    | Add(id: Id, saved: bool, cleared: bool)
    | Begin(id: Id, written: bool)
    | Observe
    | Finish
    | RemoveForRestart(id: Id)
    | StartDrain
    | CheckEmpty
    | GiveUp
    | CancelContext

  function Initial(tombs: set<Id>): State {
    State(Book({}, {}, tombs), Idle, NotStarted, [])
  }

  /** An add waits for the removal of its id. The tick goroutine does one removal at a time. */
  predicate Enabled(s: State, step: Step) {
    match step
    case Add(id, saved, cleared) => id !in s.book.removing
    case Begin(id, written) => s.tick.Idle? && id in s.book.workers
    case Observe => s.tick.Marked?
    case Finish => s.tick.Observed?
    case RemoveForRestart(id) => s.tick.Idle? && id in s.book.workers
    case StartDrain => s.drain.NotStarted?
    case CheckEmpty => s.drain.Draining?
    case GiveUp => s.drain.Draining?
    case CancelContext => s.drain.SawEmpty? || s.drain.GaveUp?
  }

  function Take(s: State, step: Step): State
    requires Enabled(s, step)
  {
    match step
    case Add(id, saved, cleared) =>
      var book := Entered(s.book, id, saved && cleared);
      if book == s.book then s else s.(book := book, log := s.log + [Added(id)])
    case Begin(id, written) =>
      s.(book := MarkedIn(s.book, id, written), tick := Marked(id, written), log := s.log + [Began(id)])
    case Observe =>
      s.(tick := Observed(s.tick.id, s.tick.marked),
         log := s.log + [FinalObservation(s.tick.id, !s.drain.Cancelled?)])
    case Finish => s.(book := Struck(s.book, s.tick.id), tick := Idle, log := s.log + [Left(s.tick.id)])
    case RemoveForRestart(id) => s.(book := Detached(s.book, id))
    // With no worker at entry there is nothing to wait for.
    case StartDrain =>
      if s.book.workers == {} then s.(drain := SawEmpty, log := s.log + [SeenEmpty]) else s.(drain := Draining)
    case CheckEmpty =>
      if s.book.workers == {} then s.(drain := SawEmpty, log := s.log + [SeenEmpty]) else s
    case GiveUp => s.(drain := GaveUp)
    case CancelContext => s.(drain := Cancelled, log := s.log + [Cancel])
  }

  ghost predicate Runs(s: State, steps: seq<Step>, s': State)
    decreases |steps|
  {
    if steps == [] then s == s' else Enabled(s, steps[0]) && Runs(Take(s, steps[0]), steps[1..], s')
  }

  // ----- What every step keeps -----

  /** The removal under way, if any, is the only one, is registered, and is the only registered
      worker with a tombstone: it has one exactly when its write succeeded. */
  ghost predicate Consistent(s: State) {
    && s.book.removing == (if s.tick.Idle? then {} else {s.tick.id})
    && s.book.removing <= s.book.workers
    && forall w :: w in s.book.workers ==> (w in s.book.tombs <==> w in s.book.removing && s.tick.marked)
  }

  /** The removals begun and not yet observed. */
  function Open(log: seq<Event>): set<Id> {
    if log == [] then {} else OpenAfter(Open(log[..|log| - 1]), log[|log| - 1])
  }

  function OpenAfter(open: set<Id>, e: Event): set<Id> {
    match e
    case Began(id) => open + {id}
    case FinalObservation(id, _) => open - {id}
    case _ => open
  }

  /** An empty registry was seen and nothing was added since. */
  predicate QuietSinceEmpty(log: seq<Event>) {
    log != []
    && var rest, e := log[..|log| - 1], log[|log| - 1];
    (e.SeenEmpty? || (!e.Added? && QuietSinceEmpty(rest)))
  }

  ghost predicate Uncancelled(log: seq<Event>) {
    forall i :: 0 <= i < |log| ==> log[i] != Cancel && (log[i].FinalObservation? ==> log[i].live)
  }

  /** What holds at every moment the registry was seen empty, and of a cancel that follows quietly. */
  ghost predicate WellOrdered(log: seq<Event>) {
    log == [] ||
    var rest, e := log[..|log| - 1], log[|log| - 1];
    && WellOrdered(rest)
    && (e.SeenEmpty? ==> Open(rest) == {} && Uncancelled(rest))
    && (e == Cancel ==> Uncancelled(rest) && (QuietSinceEmpty(rest) ==> Open(rest) == {}))
  }

  /** What the log of a state says: the removals still open, and whether no worker is registered and
      the context is cancelled. */
  ghost predicate Tells(log: seq<Event>, open: set<Id>, empty: bool, cancelled: bool) {
    && Open(log) == open
    && (QuietSinceEmpty(log) ==> empty)
    && (!cancelled ==> Uncancelled(log))
    && WellOrdered(log)
  }

  function OpenNow(s: State): set<Id> {
    if s.tick.Marked? then {s.tick.id} else {}
  }

  ghost predicate Inv(s: State) {
    Consistent(s) && Tells(s.log, OpenNow(s), s.book.workers == {}, s.drain.Cancelled?)
  }

  lemma StepKeepsConsistent(s: State, step: Step)
    requires Consistent(s) && Enabled(s, step)
    ensures Consistent(Take(s, step))
  {
  }

  /** One event later. */
  lemma Logged(log: seq<Event>, e: Event)
    ensures Open(log + [e]) == OpenAfter(Open(log), e)
    ensures QuietSinceEmpty(log + [e]) <==> e.SeenEmpty? || (!e.Added? && QuietSinceEmpty(log))
    ensures Uncancelled(log + [e]) <==> Uncancelled(log) && e != Cancel && (e.FinalObservation? ==> e.live)
    ensures WellOrdered(log + [e]) <==>
            && WellOrdered(log)
            && (e.SeenEmpty? ==> Open(log) == {} && Uncancelled(log))
            && (e == Cancel ==> Uncancelled(log) && (QuietSinceEmpty(log) ==> Open(log) == {}))
  {
    var longer := log + [e];
    assert longer[..|longer| - 1] == log && longer[|longer| - 1] == e;
    assert forall i :: 0 <= i < |log| ==> longer[i] == log[i];
  }

  /** What a step adds to the log. */
  function Noted(s: State, step: Step): seq<Event>
    requires Enabled(s, step)
  {
    match step
    case Add(id, saved, cleared) => if Entered(s.book, id, saved && cleared) == s.book then [] else [Added(id)]
    case Begin(id, written) => [Began(id)]
    case Observe => [FinalObservation(s.tick.id, !s.drain.Cancelled?)]
    case Finish => [Left(s.tick.id)]
    case StartDrain => if s.book.workers == {} then [SeenEmpty] else []
    case CheckEmpty => if s.book.workers == {} then [SeenEmpty] else []
    case CancelContext => [Cancel]
    case _ => []
  }

  lemma EventTells(log: seq<Event>, e: Event, open: set<Id>, empty: bool, cancelled: bool, empty': bool, cancelled': bool)
    requires Tells(log, open, empty, cancelled)
    requires (e.SeenEmpty? ==> empty' && open == {} && !cancelled) && (!e.Added? && empty ==> empty')
    requires !cancelled' ==> !cancelled && e != Cancel && (e.FinalObservation? ==> e.live)
    requires e == Cancel ==> !cancelled && (empty ==> open == {})
    ensures Tells(log + [e], OpenAfter(open, e), empty', cancelled')
  {
    Logged(log, e);
  }

  lemma StepKeepsInv(s: State, step: Step)
    requires Inv(s) && Enabled(s, step)
    ensures Inv(Take(s, step))
  {
    var s', noted := Take(s, step), Noted(s, step);
    StepKeepsConsistent(s, step);
    if noted == [] {
      assert s'.log == s.log;
    } else {
      assert s'.log == s.log + [noted[0]];
      EventTells(s.log, noted[0], OpenNow(s), s.book.workers == {}, s.drain.Cancelled?, s'.book.workers == {}, s'.drain.Cancelled?);
    }
  }

  lemma {:induction false} RunKeepsInv(s: State, steps: seq<Step>, s': State)
    requires Inv(s) && Runs(s, steps, s')
    ensures Inv(s')
    decreases |steps|
  {
    if steps != [] {
      StepKeepsInv(s, steps[0]);
      RunKeepsInv(Take(s, steps[0]), steps[1..], s');
    }
  }

  /** Removal against re-add, over every interleaving. A registered worker not being removed has no
      tombstone; an id being removed is registered, and tombstoned if its write succeeded. */
  lemma RemovalAgainstReAdd(tombs: set<Id>, steps: seq<Step>, s: State)
    requires Runs(Initial(tombs), steps, s)
    ensures s.book.workers * s.book.tombs <= s.book.removing <= s.book.workers
    ensures |s.book.removing| <= 1
    ensures !s.tick.Idle? && s.tick.marked ==> s.book.removing <= s.book.tombs
  {
    RunKeepsInv(Initial(tombs), steps, s);
  }

  // ----- The order of a drain -----

  /** Every removal begun before position `k` was finally observed before it, by a collector whose
      context was live. */
  ghost predicate ObservedBefore(log: seq<Event>, k: nat)
    requires k <= |log|
  {
    forall i :: 0 <= i < k && log[i].Began? ==> exists j :: i < j < k && log[j] == FinalObservation(log[i].id, true)
  }

  /** An id is open exactly when its last begin has no final observation after it. */
  lemma {:induction false} OpenMeaning(log: seq<Event>, i: nat)
    requires i < |log| && log[i].Began? && log[i].id !in Open(log)
    ensures exists j :: i < j < |log| && log[j].FinalObservation? && log[j].id == log[i].id
  {
    var rest, e := log[..|log| - 1], log[|log| - 1];
    if e.FinalObservation? && e.id == log[i].id {
    } else {
      OpenMeaning(rest, i);
      var j :| i < j < |rest| && rest[j].FinalObservation? && rest[j].id == rest[i].id;
      assert log[j] == rest[j];
    }
  }

  lemma NothingOpen(log: seq<Event>)
    requires Open(log) == {} && Uncancelled(log)
    ensures ObservedBefore(log, |log|)
  {
    forall i | 0 <= i < |log| && log[i].Began?
      ensures exists j :: i < j < |log| && log[j] == FinalObservation(log[i].id, true)
    {
      OpenMeaning(log, i);
      var j :| i < j < |log| && log[j].FinalObservation? && log[j].id == log[i].id;
      assert log[j] == FinalObservation(log[i].id, true);
    }
  }

  lemma {:induction false} OrderedAt(log: seq<Event>, k: nat)
    requires WellOrdered(log) && k < |log|
    ensures WellOrdered(log[..k + 1])
  {
    if k + 1 < |log| {
      OrderedAt(log[..|log| - 1], k);
      assert log[..|log| - 1][..k + 1] == log[..k + 1];
    } else {
      assert log[..k + 1] == log;
    }
  }

  /** Nothing was added between `k` and `c`. */
  ghost predicate NoneAdded(log: seq<Event>, k: nat, c: nat)
    requires c <= |log|
  {
    forall i :: k < i < c ==> !log[i].Added?
  }

  lemma {:induction false} QuietUntil(log: seq<Event>, k: nat, c: nat)
    requires k < c <= |log| && log[k] == SeenEmpty && NoneAdded(log, k, c)
    ensures QuietSinceEmpty(log[..c])
  {
    assert log[..c][..c - 1] == log[..c - 1];
    if c - 1 > k {
      QuietUntil(log, k, c - 1);
    }
  }

  lemma PrefixObserved(log: seq<Event>, k: nat)
    requires k <= |log| && ObservedBefore(log[..k], k)
    ensures ObservedBefore(log, k)
  {
    forall i | 0 <= i < k && log[i].Began? ensures exists j :: i < j < k && log[j] == FinalObservation(log[i].id, true)
    {
      var j :| i < j < k && log[..k][j] == FinalObservation(log[..k][i].id, true);
      assert log[j] == FinalObservation(log[i].id, true);
    }
  }

  /** A drain that sees no worker left sees it only after every removed worker's final
      observation, in every run. */
  lemma EmptyOnlyAfterFinalObservations(tombs: set<Id>, steps: seq<Step>, s: State, k: nat)
    requires Runs(Initial(tombs), steps, s) && k < |s.log| && s.log[k] == SeenEmpty
    ensures ObservedBefore(s.log, k)
  {
    RunKeepsInv(Initial(tombs), steps, s);
    OrderedAt(s.log, k);
    assert s.log[..k + 1][..k] == s.log[..k];
    NothingOpen(s.log[..k]);
    PrefixObserved(s.log, k);
  }

  /** A drain that saw no worker left, and to which none was added since, cancels the collectors'
      context only after every removed worker's final observation. */
  lemma CancelOnlyAfterFinalObservations(tombs: set<Id>, steps: seq<Step>, s: State, k: nat, c: nat)
    requires Runs(Initial(tombs), steps, s) && k < c < |s.log| && s.log[k] == SeenEmpty && s.log[c] == Cancel
    requires NoneAdded(s.log, k, c)
    ensures ObservedBefore(s.log, c)
  {
    RunKeepsInv(Initial(tombs), steps, s);
    OrderedAt(s.log, c);
    assert s.log[..c + 1][..c] == s.log[..c];
    QuietUntil(s.log, k, c);
    NothingOpen(s.log[..c]);
    PrefixObserved(s.log, c);
  }

  // ----- Exactly when a cancel cuts a removal off -----

  lemma {:induction false} OpenIsUnobserved(log: seq<Event>, id: Id) returns (i: nat)
    requires id in Open(log)
    ensures i < |log| && log[i] == Began(id)
    ensures forall j :: i < j < |log| ==> !(log[j].FinalObservation? && log[j].id == id)
  {
    var rest, e := log[..|log| - 1], log[|log| - 1];
    if e == Began(id) {
      i := |log| - 1;
    } else {
      i := OpenIsUnobserved(rest, id);
      forall j | i < j < |log| ensures !(log[j].FinalObservation? && log[j].id == id) {
        assert j < |rest| ==> log[j] == rest[j];
      }
    }
  }

  lemma ObservedExactlyWhenNothingOpen(log: seq<Event>)
    requires Uncancelled(log)
    ensures ObservedBefore(log, |log|) <==> Open(log) == {}
  {
    if id :| id in Open(log) {
      var i := OpenIsUnobserved(log, id);
      assert log[i].Began?;
    } else {
      NothingOpen(log);
    }
  }

  /** The run has just cancelled the context, with the final observation of a removal outstanding. */
  ghost predicate CutOff(s: State) {
    s.log != [] && s.log[|s.log| - 1] == Cancel && !ObservedBefore(s.log, |s.log| - 1)
  }

  /** A cancel cuts a removal off exactly when the tick goroutine has one begun and not observed,
      whether the drain saw no workers or gave up. */
  lemma CancelCutsOffExactlyTheMarked(s: State)
    requires Inv(s) && Enabled(s, CancelContext)
    ensures CutOff(Take(s, CancelContext)) <==> s.tick.Marked?
  {
    var s' := Take(s, CancelContext);
    assert s'.log[..|s.log|] == s.log;
    ObservedExactlyWhenNothingOpen(s.log);
    if ObservedBefore(s.log, |s.log|) { PrefixObserved(s'.log, |s.log|); }
    if ObservedBefore(s'.log, |s.log|) { ObservedInPrefix(s'.log, |s.log|); }
  }

  lemma ObservedInPrefix(log: seq<Event>, k: nat)
    requires k <= |log| && ObservedBefore(log, k)
    ensures ObservedBefore(log[..k], k)
  {
    forall i | 0 <= i < k && log[..k][i].Began?
      ensures exists j :: i < j < k && log[..k][j] == FinalObservation(log[..k][i].id, true)
    {
      assert log[i].Began?;
      var j :| i < j < k && log[j] == FinalObservation(log[i].id, true);
      assert log[..k][j] == FinalObservation(log[..k][i].id, true);
    }
  }

  /** No worker is registered but one that has been finally observed and is about to leave. */
  predicate OnlyLeaving(s: State) {
    s.book.workers <= if s.tick.Observed? then {s.tick.id} else {}
  }

  ghost predicate AddsNothing(steps: seq<Step>) {
    forall i :: 0 <= i < |steps| ==> !steps[i].Add?
  }

  /** Without an add, `OnlyLeaving` lasts, and no cancel in it cuts anything off. */
  lemma {:induction false} NothingLeftToCutOff(s: State, steps: seq<Step>, s': State)
    requires Inv(s) && !CutOff(s) && OnlyLeaving(s) && AddsNothing(steps) && Runs(s, steps, s')
    ensures !CutOff(s')
    decreases |steps|
  {
    if steps != [] {
      var next := Take(s, steps[0]);
      StepKeepsInv(s, steps[0]);
      assert !steps[0].Add?;
      if steps[0].CancelContext? { CancelCutsOffExactlyTheMarked(s); }
      assert AddsNothing(steps[1..]) by { assert forall i :: 0 <= i < |steps[1..]| ==> steps[1..][i] == steps[i + 1]; }
      NothingLeftToCutOff(next, steps[1..], s');
    }
  }

  lemma OneMore(s: State, step: Step, rest: seq<Step>, s': State)
    requires Enabled(s, step) && Runs(Take(s, step), rest, s')
    ensures Runs(s, [step] + rest, s')
    ensures !step.Add? && AddsNothing(rest) ==> AddsNothing([step] + rest)
  {
    assert ([step] + rest)[1..] == rest;
    assert forall i :: 0 < i < |[step] + rest| ==> ([step] + rest)[i] == rest[i - 1];
  }

  /** From a registered worker that is not about to leave, some steps without an add end in a cancel
      that cuts its removal off. */
  lemma SomethingToCutOff(s: State) returns (steps: seq<Step>, s': State)
    requires Inv(s) && s.drain.SawEmpty? && !OnlyLeaving(s)
    ensures AddsNothing(steps) && Runs(s, steps, s') && CutOff(s')
  {
    if s.tick.Marked? {
      steps, s' := CutOffFromMarked(s);
    } else if s.tick.Observed? {
      StepKeepsInv(s, Finish);
      steps, s' := CutOffFromIdle(Take(s, Finish));
      OneMore(s, Finish, steps, s');
      steps := [Finish] + steps;
    } else {
      steps, s' := CutOffFromIdle(s);
    }
  }

  lemma CutOffFromIdle(s: State) returns (steps: seq<Step>, s': State)
    requires Inv(s) && s.drain.SawEmpty? && s.tick.Idle? && s.book.workers != {}
    ensures AddsNothing(steps) && Runs(s, steps, s') && CutOff(s')
  {
    var id :| id in s.book.workers;
    var begin := Begin(id, true);
    StepKeepsInv(s, begin);
    steps, s' := CutOffFromMarked(Take(s, begin));
    OneMore(s, begin, steps, s');
    steps := [begin] + steps;
  }

  lemma CutOffFromMarked(s: State) returns (steps: seq<Step>, s': State)
    requires Inv(s) && s.drain.SawEmpty? && s.tick.Marked?
    ensures AddsNothing(steps) && Runs(s, steps, s') && CutOff(s')
  {
    s' := Take(s, CancelContext);
    CancelCutsOffExactlyTheMarked(s);
    OneMore(s, CancelContext, [], s');
    steps := [CancelContext] + [];
  }

  /** After the drain's last look, the cancel can cut a removal off with no further worker added
      exactly when a worker is registered that is not a finally observed one about to leave. Inv
      holds in every reachable state, by `RunKeepsInv`. */
  lemma CutOffExactlyWhenExposed(s: State)
    requires Inv(s) && s.drain.SawEmpty?
    ensures (exists steps, s' :: AddsNothing(steps) && Runs(s, steps, s') && CutOff(s')) <==> !OnlyLeaving(s)
  {
    if OnlyLeaving(s) {
      forall steps, s' | AddsNothing(steps) && Runs(s, steps, s') ensures !CutOff(s') {
        assert !CutOff(s);
        NothingLeftToCutOff(s, steps, s');
      }
    } else {
      var steps, s' := SomethingToCutOff(s);
    }
  }

  /** The look itself leaves no worker, so it takes an add, and any completed add is enough:
      AddWorker does not ask whether Shutdown has begun. */
  lemma LateAddIsCutOff(s: State, id: Id) returns (steps: seq<Step>, s': State)
    requires Inv(s) && s.drain.SawEmpty? && OnlyLeaving(s) && id !in s.book.workers
    ensures Enabled(s, Add(id, true, true)) && Runs(Take(s, Add(id, true, true)), steps, s')
    ensures AddsNothing(steps) && CutOff(s')
  {
    StepKeepsInv(s, Add(id, true, true));
    assert id in Take(s, Add(id, true, true)).book.workers;
    steps, s' := SomethingToCutOff(Take(s, Add(id, true, true)));
  }
}
