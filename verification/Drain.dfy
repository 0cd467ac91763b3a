/** How long Shutdown drains a tree of supervisors (supervisor/lifecycle.go 223-532, 593-614): the
    children, the level's own workers, and at the end the tick loop, which may be draining a level
    itself. The tree does not change meanwhile, and only waiting takes time. */
module Drain {

  function Max(a: int, b: int): int { if a >= b then a else b }

  /** How a level's own workers behave once asked to stop: never, all gone after a while, or cut
      short by the operator's second signal. */
  datatype Stop = Never | Emptied(after: nat) | Forced(after: nat)

  datatype Own = NoWorkers | Workers(stop: Stop)

  /** How the cascade finds a level: still started; shut down before; or being drained by the tick
      loop, which entered it `elapsed` earlier. Shutdown returns at once from the last two, and both
      still count for the height. Below a level being drained the tree is as that drain finds it. */
  datatype Level = Started | Stopped | Draining(elapsed: nat)

  datatype Tree = Node(level: Level, own: Own, children: seq<Tree>)

  // ----- The height -----

  function Height(t: Tree): nat
    decreases t, 0
  {
    1 + Tallest(t.children)
  }

  function Tallest(ts: seq<Tree>): nat
    decreases ts, 1
  {
    if ts == [] then 0 else Max(Tallest(ts[..|ts| - 1]), Height(ts[|ts| - 1]))
  }

  method CalculateSubtreeHeight(t: Tree) returns (height: nat)
    ensures height == Height(t)
    decreases t
  {
    height := 1;
    for i := 0 to |t.children|
      invariant height == 1 + Tallest(t.children[..i])
    {
      var below := CalculateSubtreeHeight(t.children[i]);
      assert t.children[..i + 1][..i] == t.children[..i];
      if 1 + below > height { height := 1 + below; }
    }
    assert t.children[..|t.children|] == t.children;
  }

  // ----- The time -----

  datatype Event = Quiet | TimedOut | BudgetExhausted | ForceExit

  /** Whether the timer ends the wait of a level with `left` of its budget; it wins a tie. */
  predicate TimerFires(stop: Stop, left: int) {
    left <= 0 || stop.Never? || stop.after >= left
  }

  /** How long a level waits for its own workers after its children took `spent`. */
  function OwnWait(own: Own, budget: int, spent: int): nat {
    if own.NoWorkers? then 0
    else if TimerFires(own.stop, budget - spent) then Max(0, budget - spent)
    else own.stop.after
  }

  function EventOf(own: Own, budget: int, spent: int): Event {
    if own.NoWorkers? then if spent >= budget then BudgetExhausted else Quiet
    else if TimerFires(own.stop, budget - spent) then if spent >= budget then BudgetExhausted else TimedOut
    else if own.stop.Forced? then ForceExit else Quiet
  }

  /** What draining a level takes, whichever goroutine does it. */
  function Work(base: nat, t: Tree): nat
    decreases t, 0
  {
    var spent := TimeOfAll(base, t.children);
    spent + OwnWait(t.own, base * Height(t), spent)
  }

  /** What the cascade spends in a level. */
  function Time(base: nat, t: Tree): nat
    decreases t, 1
  {
    if t.level.Started? then Work(base, t) else 0
  }

  /** The children are shut down one after another. */
  function TimeOfAll(base: nat, ts: seq<Tree>): nat
    decreases ts, 2
  {
    if ts == [] then 0 else TimeOfAll(base, ts[..|ts| - 1]) + Time(base, ts[|ts| - 1])
  }

  /** Until when the tick loop is busy with drains the cascade came across, entering `t` at `at`; 0
      if it came across none. */
  function BusyUntil(base: nat, t: Tree, at: nat): nat
    decreases t, 0
  {
    match t.level
    case Started => BusyUntilOfAll(base, t.children, at)
    case Stopped => 0
    case Draining(elapsed) => at + Max(0, Work(base, t) - elapsed)
  }

  function BusyUntilOfAll(base: nat, ts: seq<Tree>, at: nat): nat
    decreases ts, 1
  {
    if ts == [] then 0
    else
      var before := ts[..|ts| - 1];
      Max(BusyUntilOfAll(base, before, at), BusyUntil(base, ts[|ts| - 1], at + TimeOfAll(base, before)))
  }

  /** When Shutdown, called at `at`, returns. Only a level that owns the tick loop waits for it. */
  function End(base: nat, t: Tree, owns: bool, at: nat): nat {
    if t.level.Started? && owns then Max(at + Time(base, t), BusyUntil(base, t, at)) else at + Time(base, t)
  }

  /** What the phases before the joins report. */
  function PhaseEvent(base: nat, t: Tree): Event {
    if t.level.Started? then EventOf(t.own, base * Height(t), TimeOfAll(base, t.children)) else Quiet
  }

  /** Nothing has warned and the tick loop is busy longer than the budget and the slack. */
  predicate JoinOverruns(base: nat, t: Tree, owns: bool, at: nat, slack: nat) {
    t.level.Started? && owns && PhaseEvent(base, t).Quiet? && BusyUntil(base, t, at) > at + base * Height(t) + slack
  }

  function Reported(base: nat, t: Tree, owns: bool, at: nat, slack: nat): Event {
    if JoinOverruns(base, t, owns, at, slack) then BudgetExhausted else PhaseEvent(base, t)
  }

  /** Shutdown against a clock: the budget is sampled at entry, the children spend from it, the rest
      arms the timer, and after the join the elapsed time is checked again. `rechecked` is the warning
      of that check, `clean` what DrainOutcomeClean then says, and `busy` until when the tick loop is
      still in a drain this call came across. */
  method Shutdown(base: nat, t: Tree, owns: bool, at: nat, slack: nat)
    returns (end: nat, event: Event, rechecked: bool, clean: bool, busy: nat)
    ensures end == End(base, t, owns, at) && busy == BusyUntil(base, t, at)
    ensures event == Reported(base, t, owns, at, slack) && rechecked == JoinOverruns(base, t, owns, at, slack)
    ensures clean <==> event.Quiet? || event.ForceExit?
    decreases t
  {
    if !t.level.Started? {
      busy := if t.level.Stopped? then 0 else at + Max(0, Work(base, t) - t.level.elapsed);
      return at, Quiet, false, true, busy;
    }
    var height := CalculateSubtreeHeight(t);
    var budget := base * height;
    assert budget == base * Height(t);
    var now;
    now, busy := ShutdownAll(base, t.children, at, slack);
    var spent := now - at;
    var wait;
    wait, event := DrainOwnWorkers(t.own, budget, spent);
    assert wait == OwnWait(t.own, base * Height(t), TimeOfAll(base, t.children));
    assert event == PhaseEvent(base, t);
    now := now + wait;
    assert now == at + Time(base, t) && busy == BusyUntil(base, t, at);
    clean := event.Quiet? || event.ForceExit?;
    if owns { now := Max(now, busy); }
    end := now;
    rechecked := event.Quiet? && end - at > budget + slack;
    if rechecked { event, clean := BudgetExhausted, false; }
  }

  /** The children, one after another. */
  method ShutdownAll(base: nat, ts: seq<Tree>, at: nat, slack: nat) returns (now: nat, busy: nat)
    ensures now == at + TimeOfAll(base, ts) && busy == BusyUntilOfAll(base, ts, at)
    decreases ts
  {
    now, busy := at, 0;
    for i := 0 to |ts|
      invariant now == at + TimeOfAll(base, ts[..i]) && busy == BusyUntilOfAll(base, ts[..i], at)
    {
      var ended, event, rechecked, clean, until := Shutdown(base, ts[i], false, now, slack);
      assert ts[..i + 1][..i] == ts[..i];
      now, busy := ended, Max(busy, until);
    }
    assert ts[..|ts|] == ts;
  }

  /** The wait for a level's own workers, against the timer armed with what is left of the budget. */
  method DrainOwnWorkers(own: Own, budget: nat, spent: nat) returns (wait: nat, event: Event)
    ensures wait == OwnWait(own, budget, spent) && event == EventOf(own, budget, spent)
  {
    wait, event := 0, Quiet;
    if own.Workers? {
      var left := budget - spent;
      if TimerFires(own.stop, left) {
        wait := Max(0, left);
        event := if spent >= budget then BudgetExhausted else TimedOut;
      } else {
        wait := own.stop.after;
        if own.stop.Forced? { event := ForceExit; }
      }
    } else if spent >= budget {
      event := BudgetExhausted;
    }
  }

  /** One more child. */
  lemma OneMore(base: nat, ts: seq<Tree>, t: Tree, at: nat)
    ensures Tallest(ts + [t]) == Max(Tallest(ts), Height(t))
    ensures TimeOfAll(base, ts + [t]) == TimeOfAll(base, ts) + Time(base, t)
    ensures BusyUntilOfAll(base, ts + [t], at)
            == Max(BusyUntilOfAll(base, ts, at), BusyUntil(base, t, at + TimeOfAll(base, ts)))
  {
    assert (ts + [t])[..|ts|] == ts;
  }

  lemma OneChild(base: nat, t: Tree, at: nat)
    ensures Tallest([t]) == Height(t) && TimeOfAll(base, [t]) == Time(base, t)
    ensures BusyUntilOfAll(base, [t], at) == BusyUntil(base, t, at)
  {
    OneMore(base, [], t, at);
    assert [] + [t] == [t];
  }

  // ----- What the report means -----

  /** A level waits for its own workers at most for what its children left of its budget, and then
      for the tick loop. It stays within its budget exactly when its children and the tick loop do. */
  lemma OwnShare(base: nat, t: Tree, owns: bool, at: nat)
    requires t.level.Started?
    ensures TimeOfAll(base, t.children) <= Time(base, t) <= Max(base * Height(t), TimeOfAll(base, t.children))
    ensures End(base, t, owns, at) <= at + base * Height(t)
            <==> TimeOfAll(base, t.children) <= base * Height(t) && (owns ==> BusyUntil(base, t, at) <= at + base * Height(t))
  {
  }

  /** A timeout is blamed on a level's own workers exactly when they had some of the budget and used
      it up. Exhaustion is reported exactly when the children spent the budget before, or nothing
      else was to be reported and the tick loop was busy past budget and slack. */
  lemma TimeoutMeansOwnWindow(base: nat, t: Tree, owns: bool, at: nat, slack: nat)
    requires t.level.Started?
    ensures var budget, spent := base * Height(t), TimeOfAll(base, t.children);
            && (Reported(base, t, owns, at, slack) == TimedOut
                <==> t.own.Workers? && spent < budget && Time(base, t) == budget
                     && (t.own.stop.Never? || t.own.stop.after >= budget - spent))
            && (Reported(base, t, owns, at, slack) == BudgetExhausted
                <==> spent >= budget || JoinOverruns(base, t, owns, at, slack))
  {
  }

  /** The check after the joins compares the whole elapsed time; it warns exactly when the phases have
      not and the tick loop overran. A drain is clean exactly when the operator forced it, or it said
      nothing and ended within budget and slack. */
  lemma RecheckExactly(base: nat, t: Tree, owns: bool, at: nat, slack: nat)
    requires t.level.Started?
    ensures JoinOverruns(base, t, owns, at, slack)
            <==> PhaseEvent(base, t).Quiet? && End(base, t, owns, at) - at > base * Height(t) + slack
    ensures var event := Reported(base, t, owns, at, slack);
            event.Quiet? || event.ForceExit?
            <==> PhaseEvent(base, t).ForceExit?
                 || (PhaseEvent(base, t).Quiet? && End(base, t, owns, at) <= at + base * Height(t) + slack)
  {
    OwnShare(base, t, owns, at);
  }

  // ----- What bounds it -----

  function Leaves(t: Tree): nat
    decreases t, 0
  {
    if t.children == [] then 1 else LeavesOfAll(t.children)
  }

  function LeavesOfAll(ts: seq<Tree>): nat
    decreases ts, 1
  {
    if ts == [] then 0 else LeavesOfAll(ts[..|ts| - 1]) + Leaves(ts[|ts| - 1])
  }

  /** The worst drain of a shape, in units of the base budget. */
  function Weight(t: Tree): nat
    decreases t, 0
  {
    Max(Height(t), WeightOfAll(t.children))
  }

  function WeightOfAll(ts: seq<Tree>): nat
    decreases ts, 1
  {
    if ts == [] then 0 else WeightOfAll(ts[..|ts| - 1]) + Weight(ts[|ts| - 1])
  }

  lemma BaseTimes(base: nat, a: nat, b: nat)
    requires a <= b
    ensures base * a <= base * b
  {
  }

  lemma Distributes(base: nat, a: nat, b: nat)
    ensures base * (a + b) == base * a + base * b
  {
  }

  lemma {:induction false} WorkWithinWeight(base: nat, t: Tree)
    ensures Time(base, t) <= Work(base, t) <= base * Weight(t)
    decreases t, 0
  {
    TimesWithinWeights(base, t.children);
    BaseTimes(base, Height(t), Weight(t));
    BaseTimes(base, WeightOfAll(t.children), Weight(t));
  }

  lemma {:induction false} TimesWithinWeights(base: nat, ts: seq<Tree>)
    ensures TimeOfAll(base, ts) <= base * WeightOfAll(ts)
    decreases ts, 1
  {
    if ts != [] {
      var rest, last := ts[..|ts| - 1], ts[|ts| - 1];
      TimesWithinWeights(base, rest);
      WorkWithinWeight(base, last);
      Distributes(base, WeightOfAll(rest), Weight(last));
    }
  }

  lemma {:induction false} BusyWithinWeight(base: nat, t: Tree, at: nat)
    ensures BusyUntil(base, t, at) <= at + base * Weight(t)
    decreases t, 0
  {
    WorkWithinWeight(base, t);
    if t.level.Started? {
      BusyWithinWeights(base, t.children, at);
      BaseTimes(base, WeightOfAll(t.children), Weight(t));
    }
  }

  lemma {:induction false} BusyWithinWeights(base: nat, ts: seq<Tree>, at: nat)
    ensures BusyUntilOfAll(base, ts, at) <= at + base * WeightOfAll(ts)
    decreases ts, 1
  {
    if ts != [] {
      var rest, last := ts[..|ts| - 1], ts[|ts| - 1];
      BusyWithinWeights(base, rest, at);
      TimesWithinWeights(base, rest);
      BusyWithinWeight(base, last, at + TimeOfAll(base, rest));
      Distributes(base, WeightOfAll(rest), Weight(last));
    }
  }

  /** The join included, a tree drains within its weight. */
  lemma EndWithinWeight(base: nat, t: Tree, owns: bool, at: nat)
    ensures End(base, t, owns, at) <= at + base * Weight(t)
  {
    WorkWithinWeight(base, t);
    BusyWithinWeight(base, t, at);
  }

  ghost predicate Chain(t: Tree) {
    |t.children| <= 1 && forall c :: c in t.children ==> Chain(c)
  }

  lemma {:induction false} ChainWeighsItsHeight(t: Tree)
    requires Chain(t)
    ensures Weight(t) == Height(t)
    decreases t
  {
    if t.children != [] {
      var c := t.children[0];
      ChainWeighsItsHeight(c);
      OneChild(0, c, 0);
      OneWeight(c);
      assert t.children == [c];
    } else {
      assert WeightOfAll(t.children) == 0;
    }
  }

  lemma OneWeight(c: Tree)
    ensures WeightOfAll([c]) == Weight(c)
  {
    assert [c][..0] == [];
  }

  /** A chain drains within its own budget. */
  lemma ChainWithinBudget(base: nat, t: Tree, owns: bool, at: nat)
    requires Chain(t)
    ensures End(base, t, owns, at) <= at + base * Height(t)
  {
    ChainWeighsItsHeight(t);
    EndWithinWeight(base, t, owns, at);
  }

  lemma ProductGrows(a: nat, b: nat, c: nat)
    requires a <= b
    ensures a * c <= b * c
  {
  }

  lemma ProductDistributes(h: nat, a: nat, b: nat)
    ensures h * (a + b) == h * a + h * b
  {
  }

  lemma {:induction false} SomeLeaf(t: Tree)
    ensures Leaves(t) >= 1
    decreases t
  {
    if t.children != [] {
      SomeLeaf(t.children[|t.children| - 1]);
    }
  }

  lemma {:induction false} WeightWithinLeaves(t: Tree)
    ensures Height(t) <= Weight(t) <= Height(t) * Leaves(t)
    decreases t, 0
  {
    SomeLeaf(t);
    ProductGrows(1, Leaves(t), Height(t));
    if t.children != [] {
      WeightsWithinLeaves(t.children, Tallest(t.children));
      ProductGrows(Tallest(t.children), Height(t), Leaves(t));
    } else {
      assert WeightOfAll(t.children) == 0;
    }
  }

  lemma {:induction false} WeightsWithinLeaves(ts: seq<Tree>, h: nat)
    requires Tallest(ts) <= h
    ensures WeightOfAll(ts) <= h * LeavesOfAll(ts)
    decreases ts, 1
  {
    if ts != [] {
      var rest, last := ts[..|ts| - 1], ts[|ts| - 1];
      WeightsWithinLeaves(rest, h);
      WeightWithinLeaves(last);
      ProductGrows(Height(last), h, Leaves(last));
      ProductDistributes(h, LeavesOfAll(rest), Leaves(last));
    }
  }

  /** Any tree drains within base * height * leaves. */
  lemma AnyTreeWithinLeaves(base: nat, t: Tree, owns: bool, at: nat)
    ensures End(base, t, owns, at) <= at + base * (Height(t) * Leaves(t))
  {
    EndWithinWeight(base, t, owns, at);
    WeightWithinLeaves(t);
    BaseTimes(base, Weight(t), Height(t) * Leaves(t));
  }

  // ----- When a tree keeps to its own budget whatever its workers do -----

  ghost predicate SameShape(t: Tree, u: Tree)
    decreases t
  {
    |t.children| == |u.children|
    && forall i :: 0 <= i < |t.children| ==> SameShape(t.children[i], u.children[i])
  }

  /** The same shape with every level started and workers that never stop. */
  function Stuck(t: Tree): Tree
    decreases t, 0
  {
    Node(Started, Workers(Never), AllStuck(t.children))
  }

  function AllStuck(ts: seq<Tree>): (us: seq<Tree>)
    ensures |us| == |ts| && forall i :: 0 <= i < |ts| ==> us[i] == Stuck(ts[i])
    decreases ts, 1
  {
    if ts == [] then [] else AllStuck(ts[..|ts| - 1]) + [Stuck(ts[|ts| - 1])]
  }

  lemma {:induction false} StuckHasShape(t: Tree)
    ensures SameShape(t, Stuck(t))
    decreases t
  {
    forall i | 0 <= i < |t.children| ensures SameShape(t.children[i], AllStuck(t.children)[i]) {
      StuckHasShape(t.children[i]);
    }
  }

  lemma {:induction false} ShapeFixesWeight(t: Tree, u: Tree)
    requires SameShape(t, u)
    ensures Height(t) == Height(u) && Weight(t) == Weight(u)
    decreases t, 0
  {
    ShapesFixWeights(t.children, u.children);
  }

  lemma {:induction false} ShapesFixWeights(ts: seq<Tree>, us: seq<Tree>)
    requires |ts| == |us| && forall i :: 0 <= i < |ts| ==> SameShape(ts[i], us[i])
    ensures Tallest(ts) == Tallest(us) && WeightOfAll(ts) == WeightOfAll(us)
    decreases ts, 1
  {
    if ts != [] {
      ShapesFixWeights(ts[..|ts| - 1], us[..|us| - 1]);
      ShapeFixesWeight(ts[|ts| - 1], us[|us| - 1]);
    }
  }

  lemma {:induction false} StuckTakesItsWeight(base: nat, t: Tree)
    ensures Time(base, Stuck(t)) == base * Weight(t)
    decreases t, 0
  {
    StuckHasShape(t);
    ShapeFixesWeight(t, Stuck(t));
    AllStuckTakeTheirWeight(base, t.children);
    BaseTimes(base, Height(t), Weight(t));
    BaseTimes(base, WeightOfAll(t.children), Weight(t));
  }

  lemma {:induction false} AllStuckTakeTheirWeight(base: nat, ts: seq<Tree>)
    ensures TimeOfAll(base, AllStuck(ts)) == base * WeightOfAll(ts)
    decreases ts, 1
  {
    if ts == [] {
      assert TimeOfAll(base, AllStuck(ts)) == 0;
    } else {
      var rest, last := ts[..|ts| - 1], ts[|ts| - 1];
      AllStuckTakeTheirWeight(base, rest);
      StuckTakesItsWeight(base, last);
      OneMore(base, AllStuck(rest), Stuck(last), 0);
      Summed(base, TimeOfAll(base, AllStuck(rest)), WeightOfAll(rest), Time(base, Stuck(last)), Weight(last));
      assert AllStuck(ts) == AllStuck(rest) + [Stuck(last)];
    }
  }

  lemma Summed(base: nat, x: int, a: nat, y: int, b: nat)
    requires x == base * a && y == base * b
    ensures x + y == base * (a + b)
  {
  }

  /** A shape drains within base * height, however its levels are found and whatever its workers do,
      exactly when no level's children weigh more than its height; a shutdown's documented bound, its
      own cascaded budget, needs that. */
  lemma WithinOwnBudgetExactly(base: nat, t: Tree)
    requires base > 0
    ensures (forall u, owns, at: nat :: SameShape(t, u) ==> End(base, u, owns, at) <= at + base * Height(u))
            <==> Weight(t) <= Height(t)
  {
    if Weight(t) <= Height(t) {
      forall u, owns, at: nat | SameShape(t, u) ensures End(base, u, owns, at) <= at + base * Height(u) {
        ShapeFixesWeight(t, u);
        EndWithinWeight(base, u, owns, at);
        BaseTimes(base, Weight(u), Height(u));
      }
    } else {
      var u := Stuck(t);
      StuckHasShape(t);
      ShapeFixesWeight(t, u);
      StuckTakesItsWeight(base, t);
      MoreIsMore(base, Height(t), Weight(t));
      assert End(base, u, false, 0) == base * Weight(t);
    }
  }

  /** So the check after the joins can only warn for a shape that is too wide for its height. */
  lemma RecheckNeedsWidth(base: nat, t: Tree, owns: bool, at: nat, slack: nat)
    requires JoinOverruns(base, t, owns, at, slack)
    ensures Weight(t) > Height(t)
  {
    EndWithinWeight(base, t, owns, at);
    if Weight(t) <= Height(t) { BaseTimes(base, Weight(t), Height(t)); }
  }

  lemma MoreIsMore(base: nat, a: nat, b: nat)
    requires base > 0 && a < b
    ensures base * a < base * b
  {
  }

  function StuckLeaf(): Tree { Node(Started, Workers(Never), []) }

  function StuckLeaves(n: nat): (leaves: seq<Tree>)
    ensures |leaves| == n
  {
    if n == 0 then [] else StuckLeaves(n - 1) + [StuckLeaf()]
  }

  lemma {:induction false} StuckLeavesAddUp(base: nat, n: nat)
    ensures TimeOfAll(base, StuckLeaves(n)) == base * n
    ensures Tallest(StuckLeaves(n)) == if n == 0 then 0 else 1
  {
    if n > 0 {
      StuckLeavesAddUp(base, n - 1);
      LeafAlone(base);
      OneMore(base, StuckLeaves(n - 1), StuckLeaf(), 0);
      Summed(base, TimeOfAll(base, StuckLeaves(n - 1)), n - 1, base, 1);
    }
  }

  lemma LeafAlone(base: nat)
    ensures Height(StuckLeaf()) == 1 && Time(base, StuckLeaf()) == Work(base, StuckLeaf()) == base
  {
    assert TimeOfAll(base, StuckLeaf().children) == 0 && Tallest(StuckLeaf().children) == 0;
  }

  /** Three stuck leaves are enough to overrun: the parent's budget is two bases and they take three. */
  lemma WideTreeOverruns(base: nat)
    requires base > 0
    ensures var t := Node(Started, Workers(Never), StuckLeaves(3));
            Height(t) == 2 && Time(base, t) == base * 3
  {
    StuckLeavesAddUp(base, 3);
  }

  /** The check after the joins does warn: a root without workers whose tick loop has just entered a
      child with four stuck leaves passes through its phases at once and then waits four bases, one
      more than its budget. */
  lemma ReapedChildOverruns(base: nat, slack: nat)
    requires base > slack
    ensures var child := Node(Draining(0), NoWorkers, StuckLeaves(4));
            var t := Node(Started, NoWorkers, [child]);
            && Height(t) == 3 && Time(base, t) == 0 && PhaseEvent(base, t) == Quiet
            && End(base, t, true, 0) == base * 4 && JoinOverruns(base, t, true, 0, slack)
  {
    var child := Node(Draining(0), NoWorkers, StuckLeaves(4));
    StuckLeavesAddUp(base, 4);
    assert Height(child) == 2 && Work(base, child) == base * 4;
    OneChild(base, child, 0);
  }
}
