/** What a window holds after any run of ticks, in terms of the ticks alone. */
module WindowHistory {
  import opened Measure
  import opened Windows

  /** One observation of a series: what was read, and when. */
  datatype Sample = Sample(value: Reading, against: Reading, at: Instant)

  /** The clock the window requires: non-zero instants that never go back. */
  ghost predicate Clocked(h: seq<Sample>) {
    h == [] ||
    var before, s := h[..|h| - 1], h[|h| - 1];
    Clocked(before) && s.at > ZERO_TIME && (before != [] ==> before[|before| - 1].at <= s.at)
  }

  lemma {:induction false} ClockedMeaning(h: seq<Sample>)
    ensures Clocked(h) <==>
            && (forall i :: 0 <= i < |h| ==> h[i].at > ZERO_TIME)
            && (forall i, j :: 0 <= i < j < |h| ==> h[i].at <= h[j].at)
  {
    if h != [] {
      var before, s := h[..|h| - 1], h[|h| - 1];
      ClockedMeaning(before);
      assert forall i :: 0 <= i < |before| ==> before[i] == h[i];
      if Clocked(h) && before != [] {
        assert forall i :: 0 <= i < |before| ==> h[i].at <= before[|before| - 1].at <= s.at;
      }
    }
  }

  function Run(c: Config, h: seq<Sample>): Window {
    if h == [] then Empty(c)
    else
      var s := h[|h| - 1];
      Observe(Run(c, h[..|h| - 1]), s.value, s.against, s.at)
  }

  predicate Accepted(c: Config, s: Sample) {
    Storable(c, s.value, s.against)
  }

  function PointOf(s: Sample): Point
    requires s.value.Known?
  {
    Point(s.at, s.value.v, s.against)
  }

  /** The index of the newest accepted sample, or -1. */
  function LastAccepted(c: Config, h: seq<Sample>): (j: int)
    ensures -1 <= j < |h|
    ensures j >= 0 ==> Accepted(c, h[j])
  {
    if h == [] then -1
    else if Accepted(c, h[|h| - 1]) then |h| - 1
    else LastAccepted(c, h[..|h| - 1])
  }

  lemma {:induction false} NoneAcceptedAfter(c: Config, h: seq<Sample>)
    ensures forall k :: LastAccepted(c, h) < k < |h| ==> !Accepted(c, h[k])
  {
    if h != [] { NoneAcceptedAfter(c, h[..|h| - 1]); }
  }

  /** Accepted sample `s`, coming after accepted sample `prev`, starts the series over: the
      source was silent for more than the demote span, or its counter went backwards. */
  predicate StartsOver(c: Config, prev: Sample, s: Sample)
    requires Accepted(c, prev) && Accepted(c, s)
  {
    s.at - prev.at > c.demoteSpan || CounterReset(c, PointOf(prev), s.value.v, s.against)
  }

  /** `s` follows an accepted sample and starts the series over. */
  predicate StartsAgain(c: Config, before: seq<Sample>, s: Sample)
    requires Accepted(c, s)
  {
    var j := LastAccepted(c, before);
    j >= 0 && StartsOver(c, before[j], s)
  }

  /** The accepted samples since the series last started over, no older than `cutoff`. */
  function Kept(c: Config, h: seq<Sample>, cutoff: Instant): seq<Point> {
    if h == [] then []
    else
      var before, s := h[..|h| - 1], h[|h| - 1];
      if !Accepted(c, s) then Kept(c, before, cutoff)
      else
        var older := if StartsAgain(c, before, s) then [] else Kept(c, before, cutoff);
        if s.at < cutoff then older else if older == [] then [PointOf(s)] else older + [PointOf(s)]
  }

  /** The instant the current uninterrupted collection began: the newest accepted sample that
      had no predecessor, started over, or whose predecessor had already aged out on the tick
      right after it was stored. */
  function Origin(c: Config, h: seq<Sample>): Instant {
    if h == [] then ZERO_TIME
    else
      var before, s := h[..|h| - 1], h[|h| - 1];
      if !Accepted(c, s) then Origin(c, before)
      else
        var j := LastAccepted(c, before);
        if j < 0 || StartsOver(c, before[j], s) || h[j + 1].at - h[j].at > c.span then s.at
        else Origin(c, before)
  }

  /** The contents a window must have after `h`. */
  function Expected(c: Config, h: seq<Sample>): seq<Point> {
    var j := LastAccepted(c, h);
    if j < 0 then []
    else if j == |h| - 1 then Kept(c, h, h[j].at - c.span)
    else if h[|h| - 1].at - h[j].at > c.demoteSpan then []
    else Kept(c, h[..j + 1], h[j + 1].at - c.span)
  }

  // ----- Meaning of the reference -----

  ghost predicate NothingStartsOverAfter(c: Config, h: seq<Sample>, k: nat) {
    forall j :: k < j < |h| && Accepted(c, h[j]) ==>
      var i := LastAccepted(c, h[..j]);
      i >= 0 ==> !StartsOver(c, h[i], h[j])
  }

  /** Sample `k` of `h` is accepted, recent enough, and nothing started the series over since. */
  ghost predicate Stands(c: Config, h: seq<Sample>, cutoff: Instant, k: nat) {
    k < |h| && Accepted(c, h[k]) && h[k].at >= cutoff && NothingStartsOverAfter(c, h, k)
  }

  lemma {:induction false} StandsStep(c: Config, before: seq<Sample>, s: Sample, cutoff: Instant, k: nat)
    requires k < |before|
    ensures var j := LastAccepted(c, before);
            Stands(c, before + [s], cutoff, k) <==>
              Stands(c, before, cutoff, k) && !(Accepted(c, s) && j >= 0 && StartsOver(c, before[j], s))
  {
    var h := before + [s];
    assert h[..|before|] == before;
    forall i | 0 <= i <= |before| ensures h[..i] == before[..i] {}
  }

  /** `at` are the standing ones among the first `n` samples, each once, in order, and `points` are
      their points. */
  ghost predicate Standing(c: Config, h: seq<Sample>, cutoff: Instant, n: nat, at: seq<nat>, points: seq<Point>) {
    && (forall k: nat :: k in at <==> k < n && Stands(c, h, cutoff, k))
    && (forall i, j :: 0 <= i < j < |at| ==> at[i] < at[j])
    && |at| == |points|
    && (forall i :: 0 <= i < |at| ==> at[i] < |h| && Accepted(c, h[at[i]]) && points[i] == PointOf(h[at[i]]))
  }

  lemma StandingLonger(c: Config, h: seq<Sample>, cutoff: Instant, at: seq<nat>, points: seq<Point>)
    requires h != [] && Standing(c, h, cutoff, |h| - 1, at, points)
    ensures var s := h[|h| - 1];
            if Accepted(c, s) && s.at >= cutoff then Standing(c, h, cutoff, |h|, at + [|h| - 1], points + [PointOf(s)])
            else Standing(c, h, cutoff, |h|, at, points)
  {
    var s := h[|h| - 1];
    assert Stands(c, h, cutoff, |h| - 1) <==> Accepted(c, s) && s.at >= cutoff;
  }

  lemma StandingBefore(c: Config, before: seq<Sample>, s: Sample, cutoff: Instant, at: seq<nat>, points: seq<Point>)
    requires Standing(c, before, cutoff, |before|, at, points)
    ensures if Accepted(c, s) && StartsAgain(c, before, s) then Standing(c, before + [s], cutoff, |before|, [], [])
            else Standing(c, before + [s], cutoff, |before|, at, points)
  {
    forall k: nat | k < |before| { StandsStep(c, before, s, cutoff, k); }
  }

  /** `Kept` in terms of sample indices. */
  lemma {:induction false} KeptMeaning(c: Config, h: seq<Sample>, cutoff: Instant) returns (at: seq<nat>)
    ensures Standing(c, h, cutoff, |h|, at, Kept(c, h, cutoff))
  {
    if h == [] {
      at := [];
    } else {
      var before, s := h[..|h| - 1], h[|h| - 1];
      at := KeptMeaning(c, before, cutoff);
      var points := Kept(c, before, cutoff);
      assert h == before + [s];
      StandingBefore(c, before, s, cutoff, at, points);
      if Accepted(c, s) && StartsAgain(c, before, s) { at, points := [], []; }
      StandingLonger(c, h, cutoff, at, points);
      if Accepted(c, s) && s.at >= cutoff { at, points := at + [|before|], points + [PointOf(s)]; }
    }
  }

  // ----- Pruning an ascending sequence is filtering it -----

  lemma {:induction false} PruneOfPrefix(ps: seq<Point>, p: Point, cutoff: Instant, n: nat)
    requires n <= |ps|
    ensures PruneFirst(ps + [p], cutoff, n) == PruneFirst(ps, cutoff, n)
  {
    if n > 0 { PruneOfPrefix(ps, p, cutoff, n - 1); }
  }

  lemma PruneLast(ps: seq<Point>, p: Point, cutoff: Instant)
    requires forall i :: 0 <= i < |ps| ==> ps[i].at <= p.at
    ensures Prune(ps + [p], cutoff) == Prune(ps, cutoff) + (if p.at >= cutoff then [p] else [])
  {
    PruneOfPrefix(ps, p, cutoff, |ps|);
    if p.at < cutoff { AllStale(ps, cutoff, |ps|); }
  }

  lemma {:induction false} KeptBounds(c: Config, h: seq<Sample>, cutoff: Instant)
    requires Clocked(h)
    ensures Kept(c, h, cutoff) != [] ==> h != []
    ensures forall i :: 0 <= i < |Kept(c, h, cutoff)| ==> cutoff <= Kept(c, h, cutoff)[i].at <= h[|h| - 1].at
  {
    if h != [] {
      var before, s := h[..|h| - 1], h[|h| - 1];
      KeptBounds(c, before, cutoff);
      var older := Kept(c, before, cutoff);
      assert forall i :: 0 <= i < |older| ==> cutoff <= older[i].at <= s.at;
    }
  }

  lemma {:induction false} PruneKept(c: Config, h: seq<Sample>, c1: Instant, c2: Instant)
    requires Clocked(h) && c1 <= c2
    ensures Prune(Kept(c, h, c1), c2) == Kept(c, h, c2)
  {
    if h != [] {
      var before, s := h[..|h| - 1], h[|h| - 1];
      PruneKept(c, before, c1, c2);
      if Accepted(c, s) {
        var j := LastAccepted(c, before);
        var rest := if j >= 0 && StartsOver(c, before[j], s) then [] else Kept(c, before, c1);
        KeptBounds(c, before, c1);
        if s.at >= c1 {
          if rest == [] { assert rest + [PointOf(s)] == [PointOf(s)]; }
          PruneLast(rest, PointOf(s), c2);
        } else {
          assert rest == [];
        }
      }
    }
  }

  /** Either the newest accepted sample is kept, and last, or nothing is. */
  lemma {:induction false} NewestKept(c: Config, h: seq<Sample>, cutoff: Instant)
    requires Clocked(h)
    ensures var j := LastAccepted(c, h); var kept := Kept(c, h, cutoff);
            if j >= 0 && h[j].at >= cutoff then kept != [] && kept[|kept| - 1] == PointOf(h[j])
            else kept == []
  {
    if h != [] {
      var before, s := h[..|h| - 1], h[|h| - 1];
      NewestKept(c, before, cutoff);
      if LastAccepted(c, h) >= 0 { ClockedPrefix(h, LastAccepted(c, h)); }
      if LastAccepted(c, before) >= 0 { ClockedPrefix(h, LastAccepted(c, before)); }
    }
  }

  lemma {:induction false} KeptIgnoresRefused(c: Config, h: seq<Sample>, j: nat, cutoff: Instant)
    requires j < |h| && forall k :: j < k < |h| ==> !Accepted(c, h[k])
    ensures Kept(c, h, cutoff) == Kept(c, h[..j + 1], cutoff)
    ensures LastAccepted(c, h) == LastAccepted(c, h[..j + 1])
  {
    if j == |h| - 1 {
      assert h[..j + 1] == h;
    } else {
      KeptIgnoresRefused(c, h[..|h| - 1], j, cutoff);
      assert h[..|h| - 1][..j + 1] == h[..j + 1];
    }
  }

  // ----- The window refines its history -----

  /** Window `w` is what history `h` prescribes. After a stored tick it holds the accepted
      readings within the span since the series last started over. During an outage it holds
      what was left on the first missed tick, unchanged, until more than the demote span has
      passed since the last stored reading, and nothing from then on. */
  ghost predicate Holds(c: Config, h: seq<Sample>, w: Window) {
    && w.cfg == c
    && w.points == Expected(c, h)
    && w.lastAppendStored == (h != [] && Accepted(c, h[|h| - 1]))
    && (LastAccepted(c, h) >= 0 ==> w.firstStored == Origin(c, h))
  }

  /** After any clocked history the window holds exactly what the history prescribes. */
  lemma {:induction false} WindowRefinesHistory(c: Config, h: seq<Sample>)
    requires c.span > 0 && c.demoteSpan > 0 && Clocked(h)
    ensures Holds(c, h, Run(c, h))
  {
    if h != [] {
      var before, s := h[..|h| - 1], h[|h| - 1];
      WindowRefinesHistory(c, before);
      assert h == before + [s];
      if Accepted(c, s) {
        StoredTick(c, before, s, Run(c, before));
      } else {
        MissedTick(c, before, s, Run(c, before));
      }
    }
  }

  lemma {:induction false} ExpectedAfterMiss(c: Config, before: seq<Sample>, s: Sample)
    requires !Accepted(c, s)
    ensures LastAccepted(c, before + [s]) == LastAccepted(c, before)
    ensures Origin(c, before + [s]) == Origin(c, before)
    ensures var j := LastAccepted(c, before);
            Expected(c, before + [s]) ==
              if j < 0 || s.at - before[j].at > c.demoteSpan then []
              else if j == |before| - 1 then Kept(c, before, s.at - c.span)
              else Kept(c, before[..j + 1], before[j + 1].at - c.span)
  {
    var h, j := before + [s], LastAccepted(c, before);
    LastAcceptedAfterMiss(c, before, s);
    if j >= 0 {
      assert h[..j + 1] == before[..j + 1];
      if j == |before| - 1 { assert before[..j + 1] == before; } else { assert h[j + 1] == before[j + 1]; }
    }
  }

  lemma {:induction false} LastAcceptedAfterMiss(c: Config, before: seq<Sample>, s: Sample)
    requires !Accepted(c, s)
    ensures LastAccepted(c, before + [s]) == LastAccepted(c, before)
    ensures Origin(c, before + [s]) == Origin(c, before)
  {
    assert (before + [s])[..|before|] == before;
  }

  lemma {:induction false} ClockedPrefix(h: seq<Sample>, k: nat)
    requires Clocked(h) && k < |h|
    ensures Clocked(h[..k + 1]) && ZERO_TIME < h[k].at <= h[|h| - 1].at
    ensures k + 1 < |h| ==> h[k].at <= h[k + 1].at <= h[|h| - 1].at
  {
    if k == |h| - 1 {
      assert h[..k + 1] == h;
    } else {
      var before := h[..|h| - 1];
      ClockedPrefix(before, k);
      assert before[..k + 1] == h[..k + 1];
    }
  }

  /** A tick at `now` may follow `h`. */
  ghost predicate Ahead(h: seq<Sample>, now: Instant) {
    Clocked(h) && now > ZERO_TIME && (h != [] ==> h[|h| - 1].at <= now)
  }

  lemma NextIsAhead(before: seq<Sample>, s: Sample)
    requires Clocked(before + [s])
    ensures Ahead(before, s.at)
  {
    assert (before + [s])[..|before|] == before;
  }

  lemma AheadOf(h: seq<Sample>, now: Instant, k: nat)
    requires Ahead(h, now) && k < |h|
    ensures Clocked(h[..k + 1]) && ZERO_TIME < h[k].at <= now
    ensures k + 1 < |h| ==> h[k].at <= h[k + 1].at <= now
  {
    ClockedPrefix(h, k);
  }

  /** `p` is the newest of `ps`, if there is any. */
  ghost predicate Newest(ps: seq<Point>, p: Point) {
    && (ps != [] ==> ps[|ps| - 1] == p)
    && (forall i :: 0 <= i < |ps| ==> ps[i].at <= p.at)
  }

  /** `h` ends with an accepted sample; its points were pruned at `at`, and may be again at `now`. */
  lemma {:induction false} KeptFacts(c: Config, h: seq<Sample>, at: Instant, now: Instant)
    requires c.span > 0 && Clocked(h) && h != [] && Accepted(c, h[|h| - 1]) && h[|h| - 1].at <= at <= now
    ensures Prune(Kept(c, h, at - c.span), now - c.span) == Kept(c, h, now - c.span)
    ensures Newest(Kept(c, h, at - c.span), PointOf(h[|h| - 1]))
    ensures Kept(c, h, at - c.span) == [] <==> at - h[|h| - 1].at > c.span
  {
    PruneKept(c, h, at - c.span, now - c.span);
    KeptBounds(c, h, at - c.span);
    NewestKept(c, h, at - c.span);
  }

  /** Contents right after a stored tick, met by a tick at `now`. */
  lemma AfterStored(c: Config, before: seq<Sample>, now: Instant)
    requires c.span > 0 && Clocked(before) && before != [] && Accepted(c, before[|before| - 1])
    requires before[|before| - 1].at <= now
    ensures Prune(Expected(c, before), now - c.span) == Kept(c, before, now - c.span)
    ensures Newest(Expected(c, before), PointOf(before[|before| - 1]))
  {
    KeptFacts(c, before, before[|before| - 1].at, now);
  }

  /** What that tick then keeps. */
  lemma AfterTrimming(c: Config, before: seq<Sample>, now: Instant)
    requires c.span > 0 && Clocked(before) && before != [] && Accepted(c, before[|before| - 1])
    requires before[|before| - 1].at <= now
    ensures Prune(Kept(c, before, now - c.span), now - c.span) == Kept(c, before, now - c.span)
    ensures Newest(Kept(c, before, now - c.span), PointOf(before[|before| - 1]))
    ensures Kept(c, before, now - c.span) == [] <==> now - before[|before| - 1].at > c.span
  {
    KeptFacts(c, before, now, now);
  }

  /** Contents during an outage, met by a tick at `now` within the demote span. */
  lemma {:induction false} DuringOutage(c: Config, before: seq<Sample>, j: nat, now: Instant)
    requires c.span > 0 && Clocked(before) && LastAccepted(c, before) == j < |before| - 1
    requires before[|before| - 1].at <= now
    ensures Newest(Expected(c, before), PointOf(before[j]))
    ensures now - before[j].at <= c.demoteSpan ==>
              Expected(c, before) == Kept(c, before[..j + 1], before[j + 1].at - c.span)
    ensures now - before[j].at <= c.demoteSpan ==>
              Prune(Expected(c, before), now - c.span) == Kept(c, before, now - c.span)
    ensures now - before[j].at <= c.demoteSpan ==>
              (Expected(c, before) == [] <==> before[j + 1].at - before[j].at > c.span)
  {
    ClockedPrefix(before, j);
    NoneAcceptedAfter(c, before);
    KeptIgnoresRefused(c, before, j, now - c.span);
    var first, missed := before[..j + 1], before[j + 1].at;
    KeptFacts(c, first, missed, now);
    assert first[|first| - 1] == before[j];
  }

  /** Right after a stored tick ageing trims to the span, which leaves `kept`, or leaves nothing. */
  lemma TrimmedStep(w: Window, p: Point, now: Instant, kept: seq<Point>)
    requires p.at > ZERO_TIME && Newest(w.points, p) && w.lastAppendStored
    requires Prune(w.points, now - w.cfg.span) == kept
    ensures Age(w, now).points == if now - p.at > w.cfg.demoteSpan then [] else kept
  {
    assert Prune([], now - w.cfg.span) == [];
  }

  /** During an outage ageing leaves all or nothing. */
  lemma FrozenStep(w: Window, p: Point, now: Instant)
    requires p.at > ZERO_TIME && Newest(w.points, p) && !w.lastAppendStored
    ensures Age(w, now).points == if now - p.at > w.cfg.demoteSpan then [] else w.points
  {
  }

  lemma AgeKeepsTheRest(w: Window, now: Instant)
    ensures Age(w, now) == w.(points := Age(w, now).points)
    ensures w.points == [] ==> Age(w, now).points == []
  {
    assert Prune([], now - w.cfg.span) == [];
  }

  lemma {:induction false} NothingYet(c: Config, h: seq<Sample>, cutoff: Instant)
    requires LastAccepted(c, h) < 0
    ensures Kept(c, h, cutoff) == []
  {
    if h != [] { NothingYet(c, h[..|h| - 1], cutoff); }
  }

  /** What a tick at `now` finds after ageing, when sample `j` was the last one stored. */
  function Aged(c: Config, before: seq<Sample>, j: nat, now: Instant): seq<Point>
    requires j < |before|
  {
    if now - before[j].at > c.demoteSpan then []
    else if j == |before| - 1 then Kept(c, before, now - c.span)
    else Kept(c, before[..j + 1], before[j + 1].at - c.span)
  }

  lemma AgedTick(c: Config, before: seq<Sample>, now: Instant, w: Window, j: nat)
    requires c.span > 0 && Ahead(before, now)
    requires Holds(c, before, w) && LastAccepted(c, before) == j
    ensures Age(w, now).points == Aged(c, before, j, now)
  {
    if j == |before| - 1 { AgedAfterStored(c, before, now, w, j); } else { AgedInOutage(c, before, now, w, j); }
  }

  lemma AgedAfterStored(c: Config, before: seq<Sample>, now: Instant, w: Window, j: nat)
    requires c.span > 0 && Ahead(before, now)
    requires Holds(c, before, w) && LastAccepted(c, before) == j == |before| - 1
    ensures Age(w, now).points == if now - before[j].at > c.demoteSpan then [] else Kept(c, before, now - c.span)
  {
    AheadOf(before, now, j);
    AfterStored(c, before, now);
    TrimmedStep(w, PointOf(before[j]), now, Kept(c, before, now - c.span));
  }

  lemma AgedInOutage(c: Config, before: seq<Sample>, now: Instant, w: Window, j: nat)
    requires c.span > 0 && Ahead(before, now)
    requires Holds(c, before, w) && LastAccepted(c, before) == j < |before| - 1
    ensures Age(w, now).points ==
              if now - before[j].at > c.demoteSpan then [] else Kept(c, before[..j + 1], before[j + 1].at - c.span)
  {
    AheadOf(before, now, j);
    DuringOutage(c, before, j, now);
    FrozenStep(w, PointOf(before[j]), now);
  }

  /** What pruning for the same tick leaves of that. */
  lemma AgedThenPruned(c: Config, before: seq<Sample>, now: Instant, j: nat)
    requires c.span > 0 && Ahead(before, now) && LastAccepted(c, before) == j
    ensures Newest(Aged(c, before, j, now), PointOf(before[j]))
    ensures now - before[j].at <= c.demoteSpan ==>
              Prune(Aged(c, before, j, now), now - c.span) == Kept(c, before, now - c.span)
    ensures now - before[j].at <= c.demoteSpan ==>
              (Aged(c, before, j, now) == [] <==> (if j == |before| - 1 then now else before[j + 1].at) - before[j].at > c.span)
  {
    if j == |before| - 1 { AfterTrimming(c, before, now); } else { OutagePruned(c, before, j, now); }
  }

  lemma OutagePruned(c: Config, before: seq<Sample>, j: nat, now: Instant)
    requires c.span > 0 && Ahead(before, now) && LastAccepted(c, before) == j < |before| - 1
    ensures var e := Kept(c, before[..j + 1], before[j + 1].at - c.span);
            && Newest(e, PointOf(before[j]))
            && Prune(e, now - c.span) == Kept(c, before, now - c.span)
            && (e == [] <==> before[j + 1].at - before[j].at > c.span)
  {
    AheadOf(before, now, j);
    NoneAcceptedAfter(c, before);
    KeptIgnoresRefused(c, before, j, now - c.span);
    var first := before[..j + 1];
    assert first[|first| - 1] == before[j];
    KeptFacts(c, first, before[j + 1].at, now);
  }

  // ----- A tick that stores nothing -----

  lemma MissedTick(c: Config, before: seq<Sample>, s: Sample, w: Window)
    requires c.span > 0 && c.demoteSpan > 0 && Clocked(before + [s])
    requires Holds(c, before, w) && !Accepted(c, s)
    ensures Holds(c, before + [s], Observe(w, s.value, s.against, s.at))
  {
    var e := Expected(c, before + [s]);
    NextIsAhead(before, s);
    LastAcceptedAfterMiss(c, before, s);
    MissedContents(c, before, s, w, e);
    AgeKeepsTheRest(w, s.at);
    assert Observe(w, s.value, s.against, s.at) == w.(points := e, lastAppendStored := false);
  }

  lemma MissedContents(c: Config, before: seq<Sample>, s: Sample, w: Window, e: seq<Point>)
    requires c.span > 0 && Ahead(before, s.at) && e == Expected(c, before + [s])
    requires Holds(c, before, w) && !Accepted(c, s)
    ensures Age(w, s.at).points == e
  {
    var j := LastAccepted(c, before);
    ExpectedAfterMiss(c, before, s);
    if j < 0 {
      assert w.points == [] && e == [];
      AgeKeepsTheRest(w, s.at);
    } else {
      assert e == Aged(c, before, j, s.at);
      AgedTick(c, before, s.at, w, j);
    }
  }

  // ----- A tick that stores -----

  lemma ExpectedAfterStore(c: Config, before: seq<Sample>, s: Sample)
    requires Accepted(c, s) && c.span > 0
    ensures LastAccepted(c, before + [s]) == |before|
    ensures Expected(c, before + [s]) ==
            (if StartsAgain(c, before, s) then [] else Kept(c, before, s.at - c.span)) + [PointOf(s)]
  {
    EndsAccepted(c, before + [s], before, s);
    KeptStored(c, before + [s], before, s, s.at - c.span);
  }

  lemma EndsAccepted(c: Config, h: seq<Sample>, before: seq<Sample>, s: Sample)
    requires h == before + [s] && Accepted(c, s)
    ensures LastAccepted(c, h) == |before|
    ensures Expected(c, h) == Kept(c, h, s.at - c.span)
  {
  }

  lemma KeptStored(c: Config, h: seq<Sample>, before: seq<Sample>, s: Sample, cutoff: Instant)
    requires h == before + [s] && Accepted(c, s) && s.at >= cutoff
    ensures Kept(c, h, cutoff) == (if StartsAgain(c, before, s) then [] else Kept(c, before, cutoff)) + [PointOf(s)]
  {
    assert h[..|h| - 1] == before;
  }

  lemma OriginAfterStore(c: Config, before: seq<Sample>, s: Sample, j: int)
    requires Accepted(c, s) && j == LastAccepted(c, before)
    ensures Origin(c, before + [s]) ==
            if j < 0 || StartsOver(c, before[j], s)
               || (if j == |before| - 1 then s.at else before[j + 1].at) - before[j].at > c.span then s.at
            else Origin(c, before)
  {
    OriginStored(c, before + [s], before, s, j);
  }

  lemma OriginStored(c: Config, h: seq<Sample>, before: seq<Sample>, s: Sample, j: int)
    requires h == before + [s] && Accepted(c, s) && j == LastAccepted(c, before)
    ensures j < 0 ==> Origin(c, h) == s.at
    ensures j >= 0 ==> Origin(c, h) == if StartsOver(c, before[j], s) || h[j + 1].at - before[j].at > c.span then s.at
                                       else Origin(c, before)
  {
    assert h[..|h| - 1] == before;
  }

  /** Storing onto contents whose instants do not exceed the new one. */
  lemma StoreStep(w: Window, s: Sample)
    requires w.cfg.span > 0 && Accepted(w.cfg, s)
    requires forall i :: 0 <= i < |w.points| ==> w.points[i].at <= s.at
    ensures var reset := ResetAgainst(w.cfg, w.points, s);
            var w' := Append(w, s.value, s.against, s.at);
            && w'.cfg == w.cfg && w'.lastAppendStored
            && w'.points == (if reset then [] else Prune(w.points, s.at - w.cfg.span)) + [PointOf(s)]
            && w'.firstStored == if reset || w.points == [] then s.at else w.firstStored
  {
    PruneLast(w.points, PointOf(s), s.at - w.cfg.span);
    PruneLast([], PointOf(s), s.at - w.cfg.span);
  }

  /** The counter reset as the code tests it, against the newest point still held. */
  ghost predicate ResetAgainst(c: Config, held: seq<Point>, s: Sample)
    requires Accepted(c, s)
  {
    held != [] && CounterReset(c, held[|held| - 1], s.value.v, s.against)
  }

  lemma StoredTick(c: Config, before: seq<Sample>, s: Sample, w: Window)
    requires c.span > 0 && c.demoteSpan > 0 && Clocked(before + [s])
    requires Holds(c, before, w) && Accepted(c, s)
    ensures Holds(c, before + [s], Observe(w, s.value, s.against, s.at))
  {
    NextIsAhead(before, s);
    AgeKeepsTheRest(w, s.at);
    StoredContents(c, before, s, w, Age(w, s.at).points);
    StoreStep(Age(w, s.at), s);
  }

  lemma StoredContents(c: Config, before: seq<Sample>, s: Sample, w: Window, aged: seq<Point>)
    requires c.span > 0 && Ahead(before, s.at) && Accepted(c, s)
    requires Holds(c, before, w) && aged == Age(w, s.at).points
    ensures forall i :: 0 <= i < |aged| ==> aged[i].at <= s.at
    ensures LastAccepted(c, before + [s]) == |before|
    ensures Expected(c, before + [s]) == (if ResetAgainst(c, aged, s) then [] else Prune(aged, s.at - c.span)) + [PointOf(s)]
    ensures Origin(c, before + [s]) == if ResetAgainst(c, aged, s) || aged == [] then s.at else w.firstStored
  {
    if LastAccepted(c, before) < 0 {
      FirstStored(c, before, s, w, aged);
    } else {
      NextStored(c, before, s, w, aged, LastAccepted(c, before));
    }
  }

  lemma NextStored(c: Config, before: seq<Sample>, s: Sample, w: Window, aged: seq<Point>, j: nat)
    requires c.span > 0 && Ahead(before, s.at) && Accepted(c, s)
    requires Holds(c, before, w) && aged == Age(w, s.at).points && LastAccepted(c, before) == j
    ensures forall i :: 0 <= i < |aged| ==> aged[i].at <= s.at
    ensures LastAccepted(c, before + [s]) == |before|
    ensures Expected(c, before + [s]) == (if ResetAgainst(c, aged, s) then [] else Prune(aged, s.at - c.span)) + [PointOf(s)]
    ensures Origin(c, before + [s]) == if ResetAgainst(c, aged, s) || aged == [] then s.at else w.firstStored
  {
    AgedFacts(c, before, s.at, w, j, aged);
    AheadOf(before, s.at, j);
    StoredAfter(c, before, s, j, aged);
  }

  lemma FirstStored(c: Config, before: seq<Sample>, s: Sample, w: Window, aged: seq<Point>)
    requires c.span > 0 && Accepted(c, s)
    requires Holds(c, before, w) && aged == Age(w, s.at).points && LastAccepted(c, before) < 0
    ensures aged == [] && LastAccepted(c, before + [s]) == |before|
    ensures Expected(c, before + [s]) == Prune([], s.at - c.span) + [PointOf(s)] && Origin(c, before + [s]) == s.at
  {
    AgeKeepsTheRest(w, s.at);
    NothingYet(c, before, s.at - c.span);
    ExpectedAfterStore(c, before, s);
    OriginAfterStore(c, before, s, LastAccepted(c, before));
  }

  lemma AgedFacts(c: Config, before: seq<Sample>, now: Instant, w: Window, j: nat, aged: seq<Point>)
    requires c.span > 0 && Ahead(before, now)
    requires Holds(c, before, w) && LastAccepted(c, before) == j && aged == Age(w, now).points
    ensures Newest(aged, PointOf(before[j]))
    ensures now - before[j].at > c.demoteSpan ==> aged == []
    ensures now - before[j].at <= c.demoteSpan ==> Prune(aged, now - c.span) == Kept(c, before, now - c.span)
    ensures now - before[j].at <= c.demoteSpan ==>
              (aged == [] <==> (if j == |before| - 1 then now else before[j + 1].at) - before[j].at > c.span)
  {
    AgedTick(c, before, now, w, j);
    AgedThenPruned(c, before, now, j);
  }

  /** The reset the code tests for, on aged contents, is the history's, and so is the origin. */
  lemma StoredAfter(c: Config, before: seq<Sample>, s: Sample, j: nat, aged: seq<Point>)
    requires c.span > 0 && Ahead(before, s.at) && Accepted(c, s) && LastAccepted(c, before) == j
    requires Newest(aged, PointOf(before[j]))
    requires s.at - before[j].at > c.demoteSpan ==> aged == []
    requires s.at - before[j].at <= c.demoteSpan ==> Prune(aged, s.at - c.span) == Kept(c, before, s.at - c.span)
    requires s.at - before[j].at <= c.demoteSpan ==>
               (aged == [] <==> (if j == |before| - 1 then s.at else before[j + 1].at) - before[j].at > c.span)
    ensures LastAccepted(c, before + [s]) == |before|
    ensures Expected(c, before + [s]) == (if ResetAgainst(c, aged, s) then [] else Prune(aged, s.at - c.span)) + [PointOf(s)]
    ensures Origin(c, before + [s]) == if ResetAgainst(c, aged, s) || aged == [] then s.at else Origin(c, before)
  {
    ExpectedAfterStore(c, before, s);
    OriginAfterStore(c, before, s, j);
    assert Prune([], s.at - c.span) == [];
  }
}
