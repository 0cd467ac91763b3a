/** Marks, the hysteresis latch, severity and ranking (diagnosis/judge.go). */
module Judge {
  import opened Measure
  import opened Windows
  import opened Sorting

  datatype Mark = Mark(at: real, inclusive: bool)

  datatype Polarity = HigherIsWorse | LowerIsWorse

  datatype Marks = Marks(unit: string, fire: Mark, clear: Mark, polarity: Polarity, worst: real)

  datatype Identity = Identity(signal: string, tier: int, attribution: int, index: int)

  datatype Fired = Fired(
    since: Instant,
    instrument: string,
    refinements: seq<Fired>,
    identity: Identity,
    marks: Marks,
    value: real)

  function Worse(v: real, m: Marks): real {
    if m.polarity == LowerIsWorse then -v else v
  }

  predicate CrossedFire(v: real, m: Marks) {
    var x, fx := Worse(v, m), Worse(m.fire.at, m);
    if m.fire.inclusive then x >= fx else x > fx
  }

  predicate CrossedClear(v: real, m: Marks) {
    var x, cx := Worse(v, m), Worse(m.clear.at, m);
    if m.clear.inclusive then x <= cx else x < cx
  }

  /** The ordering `validateSignal` demands of a mark pair. */
  predicate ValidMarks(m: Marks) {
    Worse(m.clear.at, m) < Worse(m.fire.at, m) < Worse(m.worst, m)
  }

  /** The fields of one latch; `ZERO_TIME` in an instant field means never. */
  datatype LatchState = LatchState(
    since: Instant,
    lastUpdate: Instant,
    lastRelease: Instant,
    instrument: string,
    identity: Identity,
    marks: Marks,
    value: real,
    fired: bool)

  const NoMarks := Marks("", Mark(0.0, false), Mark(0.0, false), HigherIsWorse, 0.0)

  function NewLatch(id: Identity): LatchState {
    LatchState(ZERO_TIME, ZERO_TIME, ZERO_TIME, "", id, NoMarks, 0.0, false)
  }

  function Release(l: LatchState, now: Instant): LatchState {
    l.(fired := false, lastRelease := now)
  }

  function UpdateLatch(l0: LatchState, instrument: string, r: Reduced, c: Coverage, m: Marks, now: Instant): LatchState {
    if r.state != StateValue then l0
    else
      var l := l0.(lastUpdate := now);
      if l.fired && m != l.marks then
        if CrossedClear(r.v, m) && c.Full() then Release(l, now)
        else if CrossedFire(r.v, m) then l.(marks := m, value := r.v, instrument := instrument)
        else l
      else if l.fired && CrossedClear(r.v, l.marks) && c.Full() then Release(l, now)
      else if CrossedFire(r.v, m) && !l.fired && (l.lastRelease == ZERO_TIME || now >= l.lastRelease + c.span) then
        l.(fired := true, value := r.v, marks := m, instrument := instrument, since := now)
      else l
  }

  function ResetLatch(l: LatchState): LatchState {
    if l.fired then Release(l, l.lastUpdate) else l
  }

  function ReleaseLatchAfter(l: LatchState, span: int, now: Instant): LatchState {
    if l.fired && now >= l.lastUpdate + span then Release(l, now) else l
  }

  /** A latch's verdict, without the refinements that hang under it. */
  function Verdict(l: LatchState): Fired {
    Fired(l.since, l.instrument, [], l.identity, l.marks, l.value)
  }

  /** The mutable latch object; each method takes exactly the step of the functions above. */
  class Latch {
    const identity: Identity
    var since: Instant
    var lastUpdate: Instant
    var lastRelease: Instant
    var instrument: string
    var marks: Marks
    var value: real
    var fired: bool

    function Fields(): LatchState
      reads this
    {
      LatchState(since, lastUpdate, lastRelease, instrument, identity, marks, value, fired)
    }

    constructor (id: Identity)
      ensures Fields() == NewLatch(id)
    {
      identity := id;
      since, lastUpdate, lastRelease := ZERO_TIME, ZERO_TIME, ZERO_TIME;
      instrument, marks, value, fired := "", NoMarks, 0.0, false;
    }

    /** The latch a node holds, as an object of its own. */
    constructor Holding(l: LatchState)
      ensures Fields() == l
    {
      identity := l.identity;
      since, lastUpdate, lastRelease := l.since, l.lastUpdate, l.lastRelease;
      instrument, marks, value, fired := l.instrument, l.marks, l.value, l.fired;
    }

    method Update(instrumentName: string, r: Reduced, c: Coverage, m: Marks, now: Instant)
      modifies this
      ensures Fields() == UpdateLatch(old(Fields()), instrumentName, r, c, m, now)
    {
      if r.state != StateValue {
        return;
      }
      lastUpdate := now;
      if fired && m != marks {
        if CrossedClear(r.v, m) && c.Full() {
          ReleaseNow(now);
          return;
        }
        if CrossedFire(r.v, m) {
          marks := m;
          value := r.v;
          instrument := instrumentName;
        }
        return;
      }
      if fired && m == marks && CrossedClear(r.v, marks) && c.Full() {
        ReleaseNow(now);
        return;
      }
      if CrossedFire(r.v, m) {
        if !fired && (lastRelease == ZERO_TIME || now >= lastRelease + c.span) {
          fired := true;
          value := r.v;
          marks := m;
          instrument := instrumentName;
          since := now;
        }
      }
    }

    method Reset()
      modifies this
      ensures Fields() == ResetLatch(old(Fields()))
    {
      if fired {
        fired := false;
        lastRelease := lastUpdate;
      }
    }

    method ReleaseAfter(span: int, now: Instant)
      modifies this
      ensures Fields() == ReleaseLatchAfter(old(Fields()), span, now)
    {
      if fired && now >= lastUpdate + span {
        ReleaseNow(now);
      }
    }

    method ReleaseNow(now: Instant)
      modifies this
      ensures Fields() == Release(old(Fields()), now)
    {
      fired := false;
      lastRelease := now;
    }
  }

  // ----- Marks and severity -----

  /** Under marks a table may carry, no value is on both sides: hysteresis has a gap. */
  lemma FireAndClearAreDisjoint(v: real, m: Marks)
    requires ValidMarks(m)
    ensures !(CrossedFire(v, m) && CrossedClear(v, m))
  {
  }

  function Clamp01(v: real): real {
    if v < 0.0 then 0.0 else if v > 1.0 then 1.0 else v
  }

  /** NaN, the 0/0 of zero marks, maps to 0. A finite value over a zero span is infinite. */
  function Severity(f: Fired): real {
    var m := f.marks;
    var fire := Worse(m.fire.at, m);
    var num, den := Worse(f.value, m) - fire, Worse(m.worst, m) - fire;
    if den == 0.0 then if num > 0.0 then 1.0 else 0.0
    else Clamp01(num / den)
  }

  /** The unclamped ratio behind a severity. */
  ghost function SeverityRatio(f: Fired): real
    requires ValidMarks(f.marks)
  {
    var m := f.marks;
    (Worse(f.value, m) - Worse(m.fire.at, m)) / (Worse(m.worst, m) - Worse(m.fire.at, m))
  }

  lemma {:induction false} QuotientSign(a: real, b: real)
    requires b > 0.0
    ensures a >= 0.0 ==> a / b >= 0.0
    ensures a / b == 0.0 <==> a == 0.0
    ensures a >= b <==> a / b >= 1.0
  {
    var q := a / b;
    assert q * b == a;
    if q >= 1.0 { assert (q - 1.0) * b >= 0.0; }
    if q < 1.0 { assert (1.0 - q) * b > 0.0; }
  }

  /** A verdict on the firing side of valid marks: its severity is in [0,1] with neither the
      NaN arm nor the lower clamp acting, it is 0 exactly on an inclusive fire mark, and it
      is 1 exactly from the worst value on. */
  lemma SeverityOfEvidence(f: Fired)
    requires ValidMarks(f.marks) && CrossedFire(f.value, f.marks)
    ensures 0.0 <= Severity(f) <= 1.0
    ensures SeverityRatio(f) >= 0.0
    ensures Severity(f) == 0.0 <==> f.marks.fire.inclusive && f.value == f.marks.fire.at
    ensures Severity(f) == 1.0 <==> Worse(f.value, f.marks) >= Worse(f.marks.worst, f.marks)
  {
    var m := f.marks;
    QuotientSign(Worse(f.value, m) - Worse(m.fire.at, m), Worse(m.worst, m) - Worse(m.fire.at, m));
  }

  // ----- Ranking -----

  /** The comparator `Rank` hands to `sort.Slice`. */
  predicate Outranks(a: Fired, b: Fired) {
    if a.identity.tier != b.identity.tier then a.identity.tier < b.identity.tier
    else if Severity(a) != Severity(b) then Severity(a) > Severity(b)
    else a.identity.index < b.identity.index
  }

  /** The comparator `firedTree` hands to `sort.Slice` for nested refinements. */
  predicate Precedes(a: Fired, b: Fired) {
    if a.identity.tier != b.identity.tier then a.identity.tier < b.identity.tier
    else a.identity.index < b.identity.index
  }

  lemma ComparatorsAreOrders()
    ensures StrictWeakOrder(Outranks) && StrictWeakOrder(Precedes)
  {
  }

  /** No two verdicts share a table index, as is the case among siblings. */
  ghost predicate DistinctIndexes(fired: seq<Fired>) {
    forall i, j :: 0 <= i < j < |fired| ==> fired[i].identity.index != fired[j].identity.index
  }

  /** Tier ascending, then severity descending, then index ascending. */
  ghost predicate InReportOrder(fired: seq<Fired>) {
    forall i, j :: 0 <= i < j < |fired| ==>
      var a, b := fired[i], fired[j];
      || a.identity.tier < b.identity.tier
      || (a.identity.tier == b.identity.tier && Severity(a) > Severity(b))
      || (a.identity.tier == b.identity.tier && Severity(a) == Severity(b) && a.identity.index <= b.identity.index)
  }

  method Rank(fired: seq<Fired>) returns (ranked: seq<Fired>)
    ensures multiset(ranked) == multiset(fired) && InReportOrder(ranked)
    ensures SortOutcome(fired, ranked, Outranks)
  {
    ComparatorsAreOrders();
    SortByOutcome(fired, Outranks);
    ranked := SortBy(fired, Outranks);
    assert forall i, j :: 0 <= i < j < |ranked| ==> !Outranks(ranked[j], ranked[i]);
  }

  /** For verdicts with distinct indexes the report is canonical: whatever order they arrive in
      and whatever an unstable sort does with ties, there is one outcome. */
  lemma RankIsCanonical(f1: seq<Fired>, f2: seq<Fired>, r1: seq<Fired>, r2: seq<Fired>)
    requires DistinctIndexes(f1) && multiset(f1) == multiset(f2)
    requires SortOutcome(f1, r1, Outranks) && SortOutcome(f2, r2, Outranks)
    ensures r1 == r2
  {
    forall i, j | 0 <= i < |r1| && 0 <= j < |r1| && r1[i] != r1[j]
      ensures Outranks(r1[i], r1[j]) || Outranks(r1[j], r1[i])
    {
      DistinctElements(f1, r1, i, j);
    }
    SortedPermutationIsUnique(r1, r2, Outranks);
  }

  /** The same for the nested order at one depth. */
  lemma NestedOrderIsCanonical(f1: seq<Fired>, f2: seq<Fired>, r1: seq<Fired>, r2: seq<Fired>)
    requires DistinctIndexes(f1) && multiset(f1) == multiset(f2)
    requires SortOutcome(f1, r1, Precedes) && SortOutcome(f2, r2, Precedes)
    ensures r1 == r2
  {
    forall i, j | 0 <= i < |r1| && 0 <= j < |r1| && r1[i] != r1[j]
      ensures Precedes(r1[i], r1[j]) || Precedes(r1[j], r1[i])
    {
      DistinctElements(f1, r1, i, j);
    }
    SortedPermutationIsUnique(r1, r2, Precedes);
  }

  lemma DistinctElements(f: seq<Fired>, r: seq<Fired>, i: nat, j: nat)
    requires DistinctIndexes(f) && multiset(r) == multiset(f)
    requires i < |r| && j < |r| && r[i] != r[j]
    ensures r[i].identity.index != r[j].identity.index
  {
    assert r[i] in multiset(f) && r[j] in multiset(f);
    var a :| 0 <= a < |f| && f[a] == r[i];
    var b :| 0 <= b < |f| && f[b] == r[j];
  }
}
