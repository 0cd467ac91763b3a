/** Reconciling a supervisor's children with the specs (supervisor/reconciliation.go 1646-1959): who
    is marked for removal, who leaves, and that the children come to be the specs. */
module Children {

  type Name = string

  /** Each child with how many workers it still has, and the names marked for removal. */
  datatype Family = Family(children: map<Name, nat>, marked: set<Name>)

  /** One spec: a resident child loses its mark, a missing one is created with one worker unless
      its creation fails. */
  function Visited(f: Family, name: Name, creates: set<Name>): Family {
    if name in f.children then f.(marked := f.marked - {name})
    else if name in creates then f.(children := f.children[name := 1])
    else f
  }

  function AllVisited(f: Family, specs: seq<Name>, creates: set<Name>): Family {
    if specs == [] then f
    else Visited(AllVisited(f, specs[..|specs| - 1], creates), specs[|specs| - 1], creates)
  }

  /** A child that is not listed is marked. */
  function Marked(f: Family, listed: set<Name>): Family {
    f.(marked := f.marked + (f.children.Keys - listed))
  }

  function Ready(f: Family): set<Name> {
    set n | n in f.marked && n in f.children && f.children[n] == 0
  }

  /** Marked children without workers leave, and marks without a child are dropped. */
  function Reaped(f: Family): Family {
    Family(f.children - Ready(f), f.marked * f.children.Keys - Ready(f))
  }

  function Listed(specs: seq<Name>): set<Name> { set n | n in specs }

  function Reconciled(f: Family, specs: seq<Name>, creates: set<Name>): Family {
    Reaped(Marked(AllVisited(f, specs, creates), Listed(specs)))
  }

  class Parent {
    var children: map<Name, nat>
    var pendingRemoval: set<Name>

    constructor ()
      ensures Now() == Family(map[], {})
    {
      children, pendingRemoval := map[], {};
    }

    function Now(): Family
      reads this
    {
      Family(children, pendingRemoval)
    }

    method ReconcileChildren(specs: seq<Name>, creates: set<Name>)
      modifies this
      ensures Now() == Reconciled(old(Now()), specs, creates)
    {
      ghost var before := Now();
      var specNames: set<Name> := {};
      for i := 0 to |specs|
        invariant specNames == Listed(specs[..i])
        invariant Now() == AllVisited(before, specs[..i], creates)
      {
        assert specs[..i + 1][..i] == specs[..i];
        var name := specs[i];
        specNames := specNames + {name};
        if name in children {
          if name in pendingRemoval { pendingRemoval := pendingRemoval - {name}; }
        } else if name in creates {
          children := children[name := 1];
        }
      }
      assert specs[..|specs|] == specs;
      MarkUnlisted(specNames);
      var reapList := CollectReapable();
      children := children - reapList;
      pendingRemoval := pendingRemoval - reapList;
    }

    method MarkUnlisted(specNames: set<Name>)
      modifies this`pendingRemoval
      ensures Now() == Marked(old(Now()), specNames)
    {
      var todo := children.Keys;
      while todo != {}
        invariant todo <= children.Keys
        invariant pendingRemoval == old(pendingRemoval) + (children.Keys - todo - specNames)
      {
        var name :| name in todo;
        todo := todo - {name};
        if name !in specNames && name !in pendingRemoval { pendingRemoval := pendingRemoval + {name}; }
      }
    }

    method CollectReapable() returns (reapList: set<Name>)
      modifies this`pendingRemoval
      ensures reapList == Ready(old(Now()))
      ensures pendingRemoval == old(pendingRemoval) * children.Keys
    {
      reapList := {};
      ghost var before := Now();
      var todo := pendingRemoval;
      while todo != {}
        invariant todo <= before.marked
        invariant reapList == Ready(before) - todo
        invariant pendingRemoval == before.marked - (before.marked - todo - children.Keys)
      {
        var name :| name in todo;
        todo := todo - {name};
        if name !in children { pendingRemoval := pendingRemoval - {name}; }
        else if children[name] == 0 { reapList := reapList + {name}; }
      }
    }
  }

  // ----- One reconciliation -----

  function Times(specs: seq<Name>, name: Name): nat { multiset(specs)[name] }

  /** A child created although its name was still marked from an earlier child that is gone; a
      second listing of the name takes the mark away again. */
  predicate StaleMark(f: Family, specs: seq<Name>, creates: set<Name>, n: Name) {
    n in f.marked && n !in f.children && n in creates && Times(specs, n) == 1
  }

  lemma LastListed(specs: seq<Name>, n: Name)
    requires specs != []
    ensures Listed(specs) == Listed(specs[..|specs| - 1]) + {specs[|specs| - 1]}
    ensures Times(specs, n) == Times(specs[..|specs| - 1], n) + if specs[|specs| - 1] == n then 1 else 0
    ensures Times(specs, n) == 0 <==> n !in Listed(specs)
  {
    assert specs == specs[..|specs| - 1] + [specs[|specs| - 1]];
  }

  /** What the visits leave of one name. */
  lemma {:induction false} VisitsOf(f: Family, specs: seq<Name>, creates: set<Name>, n: Name)
    ensures var v := AllVisited(f, specs, creates);
            && (n in v.children <==> n in f.children || (n in Listed(specs) && n in creates))
            && (n in v.children ==> v.children[n] == if n in f.children then f.children[n] else 1)
            && (n in v.marked <==> n in f.marked && (n in v.children && n in Listed(specs) ==> StaleMark(f, specs, creates, n)))
  {
    if specs != [] {
      VisitsOf(f, specs[..|specs| - 1], creates, n);
      LastListed(specs, n);
    }
  }

  /** What a reconciliation leaves of one name, from any state. */
  lemma ReconciledName(f: Family, specs: seq<Name>, creates: set<Name>, n: Name)
    ensures var g := Reconciled(f, specs, creates);
            && (n in Listed(specs) ==> (n in g.children <==> n in f.children || n in creates))
            && (n !in Listed(specs) ==> (n in g.children <==> n in f.children && f.children[n] > 0))
            && (n in g.children ==> g.children[n] == if n in f.children then f.children[n] else 1)
            && (n in g.marked <==> n in g.children && (n in Listed(specs) ==> StaleMark(f, specs, creates, n)))
  {
    VisitsOf(f, specs, creates, n);
  }

  /** After a reconciliation the marked names are exactly the resident children absent from the
      specs, unless it created a child under a stale mark. */
  lemma MarkedExactlyTheUnlisted(f: Family, specs: seq<Name>, creates: set<Name>)
    ensures var g := Reconciled(f, specs, creates);
            g.marked == g.children.Keys - Listed(specs) <==> !exists n :: n in specs && StaleMark(f, specs, creates, n)
  {
    var g := Reconciled(f, specs, creates);
    forall n ensures n in g.marked <==> n in g.children && (n in Listed(specs) ==> StaleMark(f, specs, creates, n)) {
      ReconciledName(f, specs, creates, n);
    }
    if n :| n in specs && StaleMark(f, specs, creates, n) {
      ReconciledName(f, specs, creates, n);
      assert n in g.marked && n in Listed(specs);
    }
  }

  /** Every marked name is resident. */
  ghost predicate Sound(f: Family) { f.marked <= f.children.Keys }

  /** From a state where every marked name is resident there is no such child; and a child leaves
      only when it is unlisted, hence marked, and has no workers. */
  lemma FromSoundStates(f: Family, specs: seq<Name>, creates: set<Name>)
    requires Sound(f)
    ensures var g := Reconciled(f, specs, creates);
            && Sound(g) && g.marked == g.children.Keys - Listed(specs)
            && forall n :: n in f.children && n !in g.children <==> n in f.children && n !in Listed(specs) && f.children[n] == 0
  {
    MarkedExactlyTheUnlisted(f, specs, creates);
    forall n ensures var g := Reconciled(f, specs, creates);
      n in f.children && n !in g.children <==> n in f.children && n !in Listed(specs) && f.children[n] == 0
    {
      ReconciledName(f, specs, creates, n);
    }
  }

  // ----- Whole ticks -----

  /** The children's part of a tick: whether its worker is removed, which drops the children and no
      mark; whether another goroutine has added that worker again by the time the tick looks for it;
      the specs the worker then gives and whether they are valid; the shutdown flag read before; and
      which creations succeed. */
  datatype Tick = Tick(
    removes: bool,
    readded: bool,
    specs: seq<Name>,
    valid: bool,
    shutdown: bool,
    creates: set<Name>)

  function Dropped(f: Family): Family { f.(children := map[]) }

  /** A removed worker that is not back has no specs. */
  function Given(t: Tick): seq<Name> { if t.removes && !t.readded then [] else t.specs }

  function Used(t: Tick): seq<Name> { if t.shutdown then [] else Given(t) }

  function Seen(f: Family, t: Tick): Family { if t.removes then Dropped(f) else f }

  /** Invalid specs end the tick before the children are reconciled. */
  predicate Reconciles(t: Tick) { Given(t) == [] || t.valid }

  function Ticked(f: Family, t: Tick): Family {
    if Reconciles(t) then Reconciled(Seen(f, t), Used(t), t.creates) else Seen(f, t)
  }

  /** Reconciling no children with no specs drops every mark. */
  lemma NothingIsLeft(marked: set<Name>, creates: set<Name>)
    ensures Reconciled(Family(map[], marked), [], creates) == Family(map[], {})
  {
    forall n ensures var g := Reconciled(Family(map[], marked), [], creates); n !in g.children && n !in g.marked {
      ReconciledName(Family(map[], marked), [], creates, n);
    }
  }

  /** A tick that removes a worker which is added again before the tick looks for it. */
  predicate Intervenes(t: Tick) { t.removes && t.readded }

  /** From a state whose marked names are resident a tick leads to such a state, marks what is
      unlisted and creates nothing under a mark, unless a re-add intervenes. */
  lemma TickKeepsSound(f: Family, t: Tick)
    requires Sound(f) && !Intervenes(t)
    ensures Sound(Ticked(f, t))
    ensures Reconciles(t) ==> Ticked(f, t).marked == Ticked(f, t).children.Keys - Listed(Used(t))
  {
    if t.removes {
      NothingIsLeft(f.marked, t.creates);
    } else {
      FromSoundStates(f, Used(t), t.creates);
    }
  }

  /** When one does intervene, exactly which ticks leave a mark that is not on an unlisted child. */
  lemma ReAddLeavesAMarkExactly(f: Family, t: Tick)
    requires Intervenes(t)
    ensures Reconciles(t) ==>
              (Ticked(f, t).marked != Ticked(f, t).children.Keys - Listed(Used(t))
               <==> !t.shutdown && exists n :: n in t.specs && n in f.marked && n in t.creates && Times(t.specs, n) == 1)
    ensures !Reconciles(t) ==> (Sound(Ticked(f, t)) <==> f.marked == {})
  {
    MarkedExactlyTheUnlisted(Dropped(f), Used(t), t.creates);
    assert Used(t) == if t.shutdown then [] else t.specs;
    forall n ensures StaleMark(Dropped(f), t.specs, t.creates, n) <==> n in f.marked && n in t.creates && Times(t.specs, n) == 1 {}
  }

  /** Between ticks workers come and go, children and marks do not. */
  ghost predicate Recounted(f: Family, d: Family) {
    d.marked == f.marked && d.children.Keys == f.children.Keys
  }

  ghost predicate Ticks(run: seq<Family>, met: seq<Family>, ticks: seq<Tick>) {
    && |run| == |ticks| + 1 && |met| == |ticks|
    && forall i :: 0 <= i < |ticks| ==> Recounted(run[i], met[i]) && run[i + 1] == Ticked(met[i], ticks[i])
  }

  /** So over any run in which none intervenes every marked name is resident. */
  lemma {:induction false} RunsStaySound(run: seq<Family>, met: seq<Family>, ticks: seq<Tick>)
    requires Ticks(run, met, ticks) && Sound(run[0]) && forall i :: 0 <= i < |ticks| ==> !Intervenes(ticks[i])
    ensures Sound(run[|ticks|])
    decreases |ticks|
  {
    if ticks != [] {
      var k := |ticks| - 1;
      RunsStaySound(run[..k + 1], met[..k], ticks[..k]);
      TickKeepsSound(met[k], ticks[k]);
    }
  }

  /** Lists one child, and no more. */
  function Lists(n: Name): Tick { Tick(false, false, [n], true, false, {n}) }

  function ListsNone(): Tick { Tick(false, false, [], true, false, {}) }

  function RemovesAndIsReAdded(n: Name): Tick { Tick(true, true, [n], true, false, {n}) }

  /** The interleaving: a child is created, unlisted and marked; while it drains its parent's worker
      is removed and added again within one tick, whose specs list the child again. The new child is
      marked although listed, until the next reconciliation. */
  lemma ReAddReachesAStaleMark(n: Name)
    ensures var f1 := Ticked(Family(map[], {}), Lists(n));
            var f2 := Ticked(f1, ListsNone());
            var f3 := Ticked(f2, RemovesAndIsReAdded(n));
            var f4 := Ticked(f3, Lists(n));
            && n in f2.children && n in f2.marked
            && n in f3.children && n in f3.marked
            && n in f4.children && n !in f4.marked
  {
    var f0: Family := Family(map[], {});
    var f1 := Reconciled(f0, [n], {n});
    var f2 := Reconciled(f1, [], {});
    var f3 := Reconciled(Dropped(f2), [n], {n});
    assert Times([n], n) == 1;
    ReconciledName(f0, [n], {n}, n);
    ReconciledName(f1, [], {}, n);
    ReconciledName(Dropped(f2), [n], {n}, n);
    ReconciledName(f3, [n], {n}, n);
  }

  // ----- Convergence -----

  /** All workers of a set of children. */
  ghost function Sum(m: map<Name, nat>, names: set<Name>): nat
    requires names <= m.Keys
    decreases names
  {
    if names == {} then 0 else var n :| n in names; m[n] + Sum(m, names - {n})
  }

  lemma {:induction false} SumWithout(m: map<Name, nat>, names: set<Name>, n: Name)
    requires names <= m.Keys && n in names
    ensures Sum(m, names) == m[n] + Sum(m, names - {n})
    decreases names
  {
    var k :| k in names && Sum(m, names) == m[k] + Sum(m, names - {k});
    if k != n {
      SumWithout(m, names - {k}, n);
      SumWithout(m, names - {n}, k);
      assert names - {k} - {n} == names - {n} - {k};
    }
  }

  lemma {:induction false} SumShrinks(m: map<Name, nat>, names: set<Name>, m': map<Name, nat>, names': set<Name>)
    requires names <= m.Keys && names' <= m'.Keys && names' <= names
    requires forall n :: n in names' ==> m'[n] <= m[n]
    ensures Sum(m', names') <= Sum(m, names)
    decreases names
  {
    if names != {} {
      var n :| n in names;
      SumWithout(m, names, n);
      if n in names' { SumWithout(m', names', n); } else { assert names' - {n} == names'; }
      SumShrinks(m, names - {n}, m', names' - {n});
    }
  }

  /** Between two reconciliations marked children only lose workers, and one of them does lose one
      while any has some left. The workers of other children are their own business. */
  ghost predicate Drains(f: Family, d: Family) {
    && d.marked == f.marked && d.children.Keys == f.children.Keys && Sound(f)
    && (forall n :: n in f.marked ==> d.children[n] <= f.children[n])
    && ((exists n :: n in f.marked && f.children[n] > 0) ==> exists n :: n in f.marked && d.children[n] < f.children[n])
  }

  ghost function Left(f: Family): nat
    requires Sound(f)
  {
    Sum(f.children, f.marked)
  }

  lemma DrainingShrinks(f: Family, d: Family)
    requires Drains(f, d) && exists n :: n in f.marked && f.children[n] > 0
    ensures Left(d) < Left(f)
  {
    var n :| n in f.marked && d.children[n] < f.children[n];
    SumWithout(f.children, f.marked, n);
    SumWithout(d.children, d.marked, n);
    SumShrinks(f.children, f.marked - {n}, d.children, d.marked - {n});
  }

  /** The specs are all there and exactly the others are marked. */
  ghost predicate Settled(f: Family, specs: seq<Name>) {
    Listed(specs) <= f.children.Keys && f.marked == f.children.Keys - Listed(specs)
  }

  lemma FirstRoundSettles(f: Family, specs: seq<Name>, creates: set<Name>)
    requires Sound(f) && Listed(specs) <= creates
    ensures Settled(Reconciled(f, specs, creates), specs)
  {
    FromSoundStates(f, specs, creates);
    forall n | n in Listed(specs) ensures n in Reconciled(f, specs, creates).children { ReconciledName(f, specs, creates, n); }
  }

  lemma ReconcilingKeepsLeft(d: Family, specs: seq<Name>, creates: set<Name>)
    requires Sound(d) && Settled(d, specs)
    ensures Sound(Reconciled(d, specs, creates)) && Settled(Reconciled(d, specs, creates), specs)
    ensures Left(Reconciled(d, specs, creates)) <= Left(d)
    ensures (forall n :: n in d.marked ==> d.children[n] == 0) ==> Reconciled(d, specs, creates).children.Keys == Listed(specs)
  {
    var g := Reconciled(d, specs, creates);
    FromSoundStates(d, specs, creates);
    forall n ensures n in Listed(specs) ==> n in g.children
      ensures n in g.marked ==> n in d.marked && g.children[n] == d.children[n]
      ensures n in g.children && n !in Listed(specs) ==> n in d.children && d.children[n] > 0
    {
      ReconciledName(d, specs, creates, n);
    }
    SumShrinks(d.children, d.marked, g.children, g.marked);
  }

  /** A run: workers drain, then the children are reconciled. */
  ghost predicate Rounds(run: seq<Family>, drained: seq<Family>, specs: seq<Name>, creates: set<Name>) {
    && |run| == |drained| + 1
    && forall i :: 0 <= i < |drained| ==> Drains(run[i], drained[i]) && run[i + 1] == Reconciled(drained[i], specs, creates)
  }

  /** Once every child is a listed one it stays so, and until then the workers left of the marked
      ones count down: after more rounds than that the children are the specs. */
  lemma {:induction false} ChildrenConverge(run: seq<Family>, drained: seq<Family>, specs: seq<Name>, creates: set<Name>)
    requires Rounds(run, drained, specs, creates) && Sound(run[0]) && Settled(run[0], specs)
    ensures var end := run[|drained|];
            Sound(end) && Settled(end, specs)
            && (Left(run[0]) < |drained| ==> end.children.Keys == Listed(specs))
            && (end.children.Keys != Listed(specs) ==> Left(end) + |drained| <= Left(run[0]))
    decreases |drained|
  {
    if drained != [] {
      var k := |drained| - 1;
      ChildrenConverge(run[..k + 1], drained[..k], specs, creates);
      OneRound(run[k], drained[k], specs, creates);
    }
  }

  lemma OneRound(f: Family, d: Family, specs: seq<Name>, creates: set<Name>)
    requires Drains(f, d) && Settled(f, specs)
    ensures var g := Reconciled(d, specs, creates);
            Sound(g) && Settled(g, specs)
            && (f.children.Keys == Listed(specs) ==> g.children.Keys == Listed(specs))
            && (g.children.Keys != Listed(specs) ==> Left(g) < Left(f))
  {
    ReconcilingKeepsLeft(d, specs, creates);
    if exists n :: n in f.marked && f.children[n] > 0 {
      DrainingShrinks(f, d);
    }
  }
}
