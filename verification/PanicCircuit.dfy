/** The panic circuit of the tick loop (supervisor/panic_recovery.go, supervisor/reconciliation.go
    558-625): how many tick panics any stretch of time can hold. */
module PanicCircuit {

  /** The instants after `cutoff`, in order. */
  function Recent(stamps: seq<int>, cutoff: int): seq<int> {
    if stamps == [] then []
    else
      var rest, last := Recent(stamps[..|stamps| - 1], cutoff), stamps[|stamps| - 1];
      if last > cutoff then rest + [last] else rest
  }

  class PanicRecovery {
    const window: int
    const maxPanics: int
    var timestamps: seq<int>

    ghost predicate Valid() { window > 0 && maxPanics > 0 }

    /** The source panics on a window or maximum that is not positive. */
    constructor (window: int, maxPanics: int)
      requires window > 0 && maxPanics > 0
      ensures Valid() && this.window == window && this.maxPanics == maxPanics && timestamps == []
    {
      this.window, this.maxPanics, timestamps := window, maxPanics, [];
    }

    method PruneExpired(now: int)
      modifies this`timestamps
      ensures timestamps == Recent(old(timestamps), now - window)
    {
      var cutoff := now - window;
      var all, pruned := timestamps, [];
      for i := 0 to |all|
        invariant pruned == Recent(all[..i], cutoff)
      {
        assert all[..i + 1][..i] == all[..i];
        if all[i] > cutoff { pruned := pruned + [all[i]]; }
      }
      assert all[..|all|] == all;
      timestamps := pruned;
    }

    method RecordPanic(now: int) returns (reached: bool)
      modifies this`timestamps
      ensures timestamps == Recent(old(timestamps) + [now], now - window)
      ensures reached == (|timestamps| >= maxPanics)
    {
      timestamps := timestamps + [now];
      PruneExpired(now);
      return |timestamps| >= maxPanics;
    }

    method PanicCount(now: int) returns (count: nat)
      modifies this`timestamps
      ensures timestamps == Recent(old(timestamps), now - window) && count == |timestamps|
    {
      PruneExpired(now);
      return |timestamps|;
    }
  }

  // ----- Ticks -----

  datatype Limit = Limit(window: int, max: nat)

  ghost predicate Positive(l: Limit) { l.window > 0 && l.max > 0 }

  datatype Circuit = Circuit(stamps: seq<int>, open: bool)

  /** A tick that begins, and whose body, if it runs, ends or panics at a later instant. */
  datatype Tick = Tick(begin: int, end: int, panics: bool)

  predicate BodyRuns(l: Limit, c: Circuit, begin: int) {
    c.open ==> Recent(c.stamps, begin - l.window) == []
  }

  /** Entering a tick: an open circuit looks at the window and closes if nothing is in it. */
  function Entered(l: Limit, c: Circuit, begin: int): Circuit {
    if c.open then Circuit(Recent(c.stamps, begin - l.window), !BodyRuns(l, c, begin)) else c
  }

  function Panicked(l: Limit, c: Circuit, at: int): Circuit {
    var stamps := Recent(c.stamps + [at], at - l.window);
    Circuit(stamps, c.open || |stamps| >= l.max)
  }

  function Ticked(l: Limit, c: Circuit, t: Tick): Circuit {
    var entered := Entered(l, c, t.begin);
    if BodyRuns(l, c, t.begin) && t.panics then Panicked(l, entered, t.end) else entered
  }

  class Guard {
    const tracker: PanicRecovery
    var panicCircuitOpen: bool

    ghost predicate Valid()
      reads this
    {
      tracker.Valid()
    }

    function Now(): Circuit
      reads this, tracker
    {
      Circuit(tracker.timestamps, panicCircuitOpen)
    }

    constructor (window: int, maxPanics: int)
      requires window > 0 && maxPanics > 0
      ensures Valid() && fresh(tracker) && tracker.window == window && tracker.maxPanics == maxPanics
      ensures Now() == Circuit([], false)
    {
      tracker := new PanicRecovery(window, maxPanics);
      panicCircuitOpen := false;
    }

    method TickGuarded(t: Tick) returns (ran: bool)
      requires Valid()
      modifies this, tracker
      ensures Valid() && Now() == Ticked(Limit(tracker.window, tracker.maxPanics), old(Now()), t)
      ensures ran == BodyRuns(Limit(tracker.window, tracker.maxPanics), old(Now()), t.begin)
    {
      ran := Enter(t.begin);
      if ran && t.panics { Recover(t.end); }
    }

    /** The check at the start of a tick. */
    method Enter(begin: int) returns (runs: bool)
      requires Valid()
      modifies this, tracker
      ensures Valid() && Now() == Entered(Limit(tracker.window, tracker.maxPanics), old(Now()), begin)
      ensures runs == BodyRuns(Limit(tracker.window, tracker.maxPanics), old(Now()), begin)
    {
      if panicCircuitOpen {
        var count := tracker.PanicCount(begin);
        if count != 0 { return false; }
        panicCircuitOpen := false;
      }
      return true;
    }

    /** The deferred handler of a tick that panicked. */
    method Recover(at: int)
      requires Valid()
      modifies this, tracker
      ensures Valid() && Now() == Panicked(Limit(tracker.window, tracker.maxPanics), old(Now()), at)
    {
      var reached := tracker.RecordPanic(at);
      if reached { panicCircuitOpen := true; }
    }
  }

  // ----- Whole runs -----

  /** One goroutine, a clock that does not go back. */
  ghost predicate Clocked(ticks: seq<Tick>) {
    forall i :: 0 <= i < |ticks| ==> ticks[i].begin <= ticks[i].end && (0 < i ==> ticks[i - 1].end <= ticks[i].begin)
  }

  ghost predicate EndedBy(ticks: seq<Tick>, begin: int) {
    ticks != [] ==> ticks[|ticks| - 1].end <= begin
  }

  function Run(l: Limit, ticks: seq<Tick>): Circuit {
    if ticks == [] then Circuit([], false) else Ticked(l, Run(l, ticks[..|ticks| - 1]), ticks[|ticks| - 1])
  }

  /** When tick bodies panicked. */
  function Panics(l: Limit, ticks: seq<Tick>): seq<int> {
    if ticks == [] then []
    else
      var before, t := ticks[..|ticks| - 1], ticks[|ticks| - 1];
      if BodyRuns(l, Run(l, before), t.begin) && t.panics then Panics(l, before) + [t.end] else Panics(l, before)
  }

  ghost predicate Sorted(s: seq<int>) { forall i, j :: 0 <= i <= j < |s| ==> s[i] <= s[j] }

  ghost predicate NoneAfter(s: seq<int>, now: int) { forall i :: 0 <= i < |s| ==> s[i] <= now }

  /** Any two panics `max` apart in the history are a window apart. */
  ghost predicate Spread(l: Limit, history: seq<int>) {
    forall i :: 0 <= i < |history| - l.max ==> history[i + l.max] - history[i] >= l.window
  }

  lemma {:induction false} RecentTwice(s: seq<int>, c: int, d: int)
    requires c <= d
    ensures Recent(Recent(s, c), d) == Recent(s, d)
  {
    if s != [] {
      var rest, last := s[..|s| - 1], s[|s| - 1];
      RecentTwice(rest, c, d);
      if last > c { assert (Recent(rest, c) + [last])[..|Recent(rest, c)|] == Recent(rest, c); }
    }
  }

  lemma RecentSnoc(s: seq<int>, at: int, c: int)
    ensures Recent(s + [at], c) == if at > c then Recent(s, c) + [at] else Recent(s, c)
  {
    assert (s + [at])[..|s|] == s;
  }

  /** From `k` on everything is recent. */
  lemma {:induction false} RecentSuffix(s: seq<int>, k: nat, c: int)
    requires Sorted(s) && k < |s| && s[k] > c
    ensures |Recent(s, c)| >= |s| - k
  {
    var rest := s[..|s| - 1];
    if k < |rest| { RecentSuffix(rest, k, c); }
  }

  lemma {:induction false} NoneRecent(s: seq<int>, c: int)
    ensures Recent(s, c) == [] <==> NoneAfter(s, c)
  {
    if s != [] { NoneRecent(s[..|s| - 1], c); }
  }

  /** What holds after every tick; `pruned` is when the list was last pruned. */
  ghost predicate Inv(l: Limit, c: Circuit, history: seq<int>, pruned: int, now: int) {
    && Positive(l) && pruned <= now && Sorted(history) && NoneAfter(history, now) && Spread(l, history)
    && c.stamps == Recent(history, pruned - l.window)
    && (!c.open && |history| >= l.max ==> now - history[|history| - l.max] >= l.window)
  }

  lemma StillRecent(history: seq<int>, c: int, d: int)
    requires c <= d
    ensures Recent(Recent(history, c), d) == Recent(history, d)
    ensures Recent(history, d) == [] <==> NoneAfter(history, d)
  {
    RecentTwice(history, c, d);
    NoneRecent(history, d);
  }

  lemma EnterKeepsInv(l: Limit, c: Circuit, history: seq<int>, pruned: int, begin: int) returns (pruned': int)
    requires Inv(l, c, history, pruned, begin)
    ensures Inv(l, Entered(l, c, begin), history, pruned', begin)
    ensures Recent(c.stamps, begin - l.window) == Recent(history, begin - l.window)
    ensures BodyRuns(l, c, begin) <==> !Entered(l, c, begin).open
    ensures BodyRuns(l, c, begin) <==> !c.open || NoneAfter(history, begin - l.window)
  {
    StillRecent(history, pruned - l.window, begin - l.window);
    if c.open {
      pruned' := begin;
      assert Entered(l, c, begin).stamps == Recent(history, begin - l.window);
    } else {
      pruned' := pruned;
      assert Entered(l, c, begin) == c;
    }
  }

  lemma SpreadSnoc(l: Limit, history: seq<int>, at: int)
    requires Positive(l) && Sorted(history) && NoneAfter(history, at) && Spread(l, history)
    requires |history| >= l.max ==> at - history[|history| - l.max] >= l.window
    ensures Sorted(history + [at]) && NoneAfter(history + [at], at) && Spread(l, history + [at])
  {
  }

  lemma RecentOfLonger(history: seq<int>, at: int, c: int, d: int)
    requires c <= d
    ensures Recent(Recent(history, c) + [at], d) == Recent(history + [at], d)
  {
    var kept := Recent(history, c);
    RecentTwice(history, c, d);
    RecentSnoc(history, at, d);
    RecentSnoc(kept, at, d);
  }

  lemma StampsSnoc(l: Limit, c: Circuit, history: seq<int>, pruned: int, at: int)
    requires c.stamps == Recent(history, pruned - l.window) && pruned <= at
    ensures Panicked(l, c, at).stamps == Recent(history + [at], at - l.window)
  {
    RecentOfLonger(history, at, pruned - l.window, at - l.window);
  }

  lemma PanicKeepsInv(l: Limit, c: Circuit, history: seq<int>, pruned: int, begin: int, at: int)
    requires Inv(l, c, history, pruned, begin) && !c.open && begin <= at
    ensures Inv(l, Panicked(l, c, at), history + [at], at, at)
  {
    var history', c' := history + [at], Panicked(l, c, at);
    SpreadSnoc(l, history, at);
    StampsSnoc(l, c, history, pruned, at);
    if !c'.open { NotYetFull(l, history', at); }
  }

  /** Fewer than `max` recent panics: the `max`-last one is a window ago. */
  lemma NotYetFull(l: Limit, history: seq<int>, at: int)
    requires Positive(l) && Sorted(history) && |Recent(history, at - l.window)| < l.max
    ensures |history| >= l.max ==> at - history[|history| - l.max] >= l.window
  {
    var k := |history| - l.max;
    if k >= 0 && history[k] > at - l.window {
      RecentSuffix(history, k, at - l.window);
    }
  }

  lemma {:induction false} RunKeepsInv(l: Limit, ticks: seq<Tick>, begin: int) returns (pruned: int)
    requires Positive(l) && Clocked(ticks) && EndedBy(ticks, begin)
    ensures Inv(l, Run(l, ticks), Panics(l, ticks), pruned, begin)
  {
    if ticks == [] {
      pruned := begin;
    } else {
      var before, t := ticks[..|ticks| - 1], ticks[|ticks| - 1];
      pruned := RunKeepsInv(l, before, t.begin);
      var c, history := Run(l, before), Panics(l, before);
      pruned := EnterKeepsInv(l, c, history, pruned, t.begin);
      if BodyRuns(l, c, t.begin) && t.panics {
        PanicKeepsInv(l, Entered(l, c, t.begin), history, pruned, t.begin, t.end);
        pruned := t.end;
      }
    }
  }

  // ----- What that means -----

  /** How many of the instants lie in [from, to). */
  function Within(s: seq<int>, from: int, to: int): nat {
    if s == [] then 0
    else
      var last := s[|s| - 1];
      Within(s[..|s| - 1], from, to) + if from <= last < to then 1 else 0
  }

  lemma {:induction false} NoneEarlier(s: seq<int>, k: nat, from: int, to: int)
    requires k <= |s| && forall i :: 0 <= i < k ==> s[i] < from
    ensures Within(s, from, to) <= |s| - k
  {
    if s != [] {
      var rest := s[..|s| - 1];
      NoneEarlier(rest, if k <= |rest| then k else |rest|, from, to);
    }
  }

  lemma {:induction false} SpreadBoundsWithin(l: Limit, s: seq<int>, from: int)
    requires Sorted(s) && Spread(l, s)
    ensures Within(s, from, from + l.window) <= l.max
  {
    if s != [] {
      var n, last := |s| - 1, s[|s| - 1];
      if from <= last < from + l.window {
        if l.max <= n {
          forall i | 0 <= i < n + 1 - l.max ensures s[i] < from {
            assert s[n - l.max + l.max] - s[n - l.max] >= l.window;
          }
          NoneEarlier(s, n + 1 - l.max, from, from + l.window);
        } else {
          NoneEarlier(s, 0, from, from + l.window);
        }
      } else {
        SpreadBoundsWithin(l, s[..n], from);
      }
    }
  }

  /** Over every run, any half-open stretch of the window's length holds at most `max` tick panics. */
  lemma PanicRate(l: Limit, ticks: seq<Tick>, from: int)
    requires Positive(l) && Clocked(ticks)
    ensures Within(Panics(l, ticks), from, from + l.window) <= l.max
  {
    var pruned := RunKeepsInv(l, ticks, if ticks == [] then 0 else ticks[|ticks| - 1].end);
    SpreadBoundsWithin(l, Panics(l, ticks), from);
  }

  /** The list is the history of panics filtered to the window, at the instant it was last pruned; a
      tick's body runs exactly when the circuit is closed or no panic is left in the window. */
  lemma ListIsHistory(l: Limit, ticks: seq<Tick>, begin: int)
    requires Positive(l) && Clocked(ticks) && EndedBy(ticks, begin)
    ensures Recent(Run(l, ticks).stamps, begin - l.window) == Recent(Panics(l, ticks), begin - l.window)
    ensures BodyRuns(l, Run(l, ticks), begin) <==> !Run(l, ticks).open || NoneAfter(Panics(l, ticks), begin - l.window)
    ensures BodyRuns(l, Run(l, ticks), begin) <==> !Entered(l, Run(l, ticks), begin).open
  {
    var pruned := RunKeepsInv(l, ticks, begin);
    pruned := EnterKeepsInv(l, Run(l, ticks), Panics(l, ticks), pruned, begin);
  }

  /** `n` ticks that all panic at one instant. */
  function Burst(at: int, n: nat): (ticks: seq<Tick>)
    ensures |ticks| == n && forall i :: 0 <= i < n ==> ticks[i] == Tick(at, at, true)
  {
    if n == 0 then [] else Burst(at, n - 1) + [Tick(at, at, true)]
  }

  function Repeated(at: int, n: nat): (s: seq<int>)
    ensures |s| == n
  {
    if n == 0 then [] else Repeated(at, n - 1) + [at]
  }

  lemma {:induction false} RepeatedIsRecent(at: int, n: nat, c: int)
    requires at > c
    ensures Recent(Repeated(at, n), c) == Repeated(at, n)
  {
    if n > 0 {
      RepeatedIsRecent(at, n - 1, c);
      RecentSnoc(Repeated(at, n - 1), at, c);
    }
  }

  lemma {:induction false} AllWithin(at: int, n: nat, to: int)
    requires at < to
    ensures Within(Repeated(at, n), at, to) == n
  {
    if n > 0 {
      assert Repeated(at, n)[..n - 1] == Repeated(at, n - 1);
      AllWithin(at, n - 1, to);
    }
  }

  lemma {:induction false} BurstRuns(l: Limit, at: int, n: nat)
    requires Positive(l) && n <= l.max
    ensures Run(l, Burst(at, n)) == Circuit(Repeated(at, n), n == l.max)
    ensures Panics(l, Burst(at, n)) == Repeated(at, n)
  {
    if n > 0 {
      BurstRuns(l, at, n - 1);
      RunSnoc(l, Burst(at, n - 1), Tick(at, at, true));
      OneMorePanic(l, at, n);
    }
  }

  lemma BurstIsClocked(ticks: seq<Tick>, at: int)
    requires forall i :: 0 <= i < |ticks| ==> ticks[i] == Tick(at, at, true)
    ensures Clocked(ticks)
  {
  }

  /** The bound is reached: `max` ticks can panic at one instant, and then the circuit is open. */
  lemma RateIsAttained(l: Limit, at: int) returns (ticks: seq<Tick>, panics: seq<int>, c: Circuit)
    requires Positive(l)
    ensures Clocked(ticks) && panics == Panics(l, ticks) && c == Run(l, ticks)
    ensures c.open && Within(panics, at, at + l.window) == l.max
  {
    ticks, panics, c := Burst(at, l.max), Repeated(at, l.max), Circuit(Repeated(at, l.max), true);
    BurstRuns(l, at, l.max);
    BurstIsClocked(ticks, at);
    AllWithin(at, l.max, at + l.window);
  }

  lemma RunSnoc(l: Limit, ticks: seq<Tick>, t: Tick)
    ensures Run(l, ticks + [t]) == Ticked(l, Run(l, ticks), t)
    ensures Panics(l, ticks + [t])
            == if BodyRuns(l, Run(l, ticks), t.begin) && t.panics then Panics(l, ticks) + [t.end] else Panics(l, ticks)
  {
    assert (ticks + [t])[..|ticks|] == ticks;
  }

  lemma OneMorePanic(l: Limit, at: int, n: nat)
    requires Positive(l) && 0 < n <= l.max
    ensures Ticked(l, Circuit(Repeated(at, n - 1), false), Tick(at, at, true)) == Circuit(Repeated(at, n), n == l.max)
  {
    RepeatedIsRecent(at, n, at - l.window);
  }
}
