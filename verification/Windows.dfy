/** The sliding window of one measured series (diagnosis/sliding_window.go). */
module Windows {
  import opened Measure

  datatype Coverage = Coverage(span: int, collectedFor: int) {
    predicate Full() {
      span > 0 && collectedFor >= span
    }
  }

  /** What a window is built with and never changes. */
  datatype Config = Config(span: int, demoteSpan: int, reduction: Reduction, counter: bool)

  /** The contents of a window: what the ageing and storing rules below act on. */
  datatype Window = Window(
    cfg: Config,
    points: seq<Point>,
    firstStored: Instant,
    lastAppendStored: bool)

  function Empty(cfg: Config): Window {
    Window(cfg, [], ZERO_TIME, false)
  }

  /** The instant of the newest point, or the zero time of an empty window. */
  function LastStored(points: seq<Point>): Instant {
    if points == [] then ZERO_TIME else points[|points| - 1].at
  }

  /** `points` without those at its front that are older than `cutoff`. */
  function Prune(points: seq<Point>, cutoff: Instant): seq<Point> {
    PruneFirst(points, cutoff, |points|)
  }

  /** The same for the first `n` of them. */
  function PruneFirst(points: seq<Point>, cutoff: Instant, n: nat): seq<Point>
    requires n <= |points|
  {
    if n == 0 then []
    else
      var rest, p := PruneFirst(points, cutoff, n - 1), points[n - 1];
      if rest != [] then rest + [p] else if p.at < cutoff then [] else [p]
  }

  lemma {:induction false} PruneDropsTheFront(points: seq<Point>, cutoff: Instant, i: nat, n: nat)
    requires i <= n <= |points| && forall k :: 0 <= k < i ==> points[k].at < cutoff
    requires i < |points| ==> points[i].at >= cutoff
    ensures PruneFirst(points, cutoff, n) == points[i..n]
  {
    if n > i {
      PruneDropsTheFront(points, cutoff, i, n - 1);
      assert points[i..n] == points[i..n - 1] + [points[n - 1]];
    } else if n > 0 {
      AllStale(points, cutoff, n);
    }
  }

  lemma {:induction false} AllStale(points: seq<Point>, cutoff: Instant, n: nat)
    requires n <= |points| && forall k :: 0 <= k < n ==> points[k].at < cutoff
    ensures PruneFirst(points, cutoff, n) == []
  {
    if n > 0 { AllStale(points, cutoff, n - 1); }
  }

  function Age(w: Window, now: Instant): Window {
    var last := LastStored(w.points);
    if last != ZERO_TIME && now - last > w.cfg.demoteSpan then w.(points := [])
    else if !w.lastAppendStored then w
    else w.(points := Prune(w.points, now - w.cfg.span))
  }

  /** The readings a window stores: a finite value, and a finite denominator where it divides. */
  predicate Storable(cfg: Config, value: Reading, against: Reading) {
    value.Known? && (cfg.reduction.divides ==> against.Known?)
  }

  /** A backwards step of a counter against the newest stored point. */
  predicate CounterReset(cfg: Config, prev: Point, value: real, against: Reading) {
    && cfg.counter
    && (|| value < prev.value
        || (cfg.reduction.divides && against.Known? && prev.against.Known? && against.v < prev.against.v))
  }

  function Append(w: Window, value: Reading, against: Reading, at: Instant): Window {
    if !Storable(w.cfg, value, against) then w.(lastAppendStored := false)
    else
      var held :=
        if w.points != [] && CounterReset(w.cfg, w.points[|w.points| - 1], value.v, against) then [] else w.points;
      Window(
        w.cfg,
        Prune(held + [Point(at, value.v, against)], at - w.cfg.span),
        if held == [] then at else w.firstStored,
        true)
  }

  /** One tick: age out, then store. */
  function Observe(w: Window, value: Reading, against: Reading, at: Instant): Window {
    Append(Age(w, at), value, against, at)
  }

  function Reduce(w: Window): Reduced {
    if w.points == [] then Reduced(0.0, StateAbsent)
    else if w.cfg.reduction.divides && DenominatorDelta(w.points) <= 0.0 then Reduced(0.0, StateUntrusted)
    else if w.cfg.reduction.fold == NoFold then Reduced(0.0, StateUntrusted)
    else
      match Apply(w.cfg.reduction.fold, w.points)
      case NaN => Reduced(0.0, StateUntrusted)
      case Finite(v) =>
        Reduced(v, if |w.points| < w.cfg.reduction.min || !w.lastAppendStored then StateUntrusted else StateValue)
  }

  function CoverageOf(w: Window): Coverage {
    Coverage(w.cfg.span, if |w.points| >= 2 then LastStored(w.points) - w.firstStored else 0)
  }

  /** The mutable window object. Each method is proved to take exactly the step of the
      functions above, about which the history theorems are stated. */
  class SlidingWindow {
    const cfg: Config
    var points: seq<Point>
    var firstStored: Instant
    var lastAppendStored: bool

    ghost function Contents(): Window
      reads this
    {
      Window(cfg, points, firstStored, lastAppendStored)
    }

    constructor (cfg: Config)
      ensures Contents() == Empty(cfg)
    {
      this.cfg := cfg;
      points, firstStored, lastAppendStored := [], ZERO_TIME, false;
    }

    method PruneBefore(cutoff: Instant)
      modifies this`points
      ensures points == Prune(old(points), cutoff)
    {
      var i := 0;
      while i < |points| && points[i].at < cutoff
        invariant 0 <= i <= |points|
        invariant forall k :: 0 <= k < i ==> points[k].at < cutoff
      {
        i := i + 1;
      }
      PruneDropsTheFront(points, cutoff, i, |points|);
      assert points[i..|points|] == points[i..];
      points := points[i..];
    }

    method AgeTo(now: Instant)
      modifies this`points
      ensures Contents() == Age(old(Contents()), now)
    {
      var last := LastStored(points);
      if last != ZERO_TIME && now - last > cfg.demoteSpan {
        points := [];
        return;
      }
      if !lastAppendStored {
        return;
      }
      PruneBefore(now - cfg.span);
    }

    method AppendPoint(value: Reading, against: Reading, at: Instant)
      modifies this
      ensures Contents() == Append(old(Contents()), value, against, at)
    {
      lastAppendStored := false;
      if !value.Known? {
        return;
      }
      if cfg.reduction.divides && !against.Known? {
        return;
      }
      if cfg.counter && |points| > 0 {
        var prev := points[|points| - 1];
        var restart := value.v < prev.value;
        if cfg.reduction.divides && against.Known? && prev.against.Known? && against.v < prev.against.v {
          restart := true;
        }
        if restart {
          points := [];
        }
      }
      if |points| == 0 {
        firstStored := at;
      }
      points := points + [Point(at, value.v, against)];
      lastAppendStored := true;
      PruneBefore(at - cfg.span);
    }

    /** Advances the window by one tick. */
    method Tick(value: Reading, against: Reading, at: Instant)
      modifies this
      ensures Contents() == Observe(old(Contents()), value, against, at)
    {
      AgeTo(at);
      AppendPoint(value, against, at);
    }

    function Reduction(): Reduced
      reads this
    {
      Reduce(Window(cfg, points, firstStored, lastAppendStored))
    }

    function Extent(): Coverage
      reads this
    {
      CoverageOf(Window(cfg, points, firstStored, lastAppendStored))
    }
  }
}
