/** The collector's freshness gate and its bounded restarts (supervisor/reconciliation.go,
    supervisor/internal/health/freshness.go, supervisor/supervisor.go). Instants are nanoseconds;
    0 is the unset instant. */
module CollectorHealth {

  function Seconds(n: int): int { 1_000_000_000 * n }

  datatype Thresholds = Thresholds(observation: int, stale: int, timeout: int, maxRestarts: int)

  /** An observation must be able to finish before data goes stale, and data goes stale before it
      times out. */
  predicate Accepted(t: Thresholds) {
    t.observation < t.stale && 0 < t.stale < t.timeout && 0 < t.maxRestarts
  }

  function OrDefault(asked: int, default: int): int { if asked == 0 then default else asked }

  datatype Checked = Checked(thresholds: Thresholds) | Panicked

  /** The checks of NewSupervisor, in its order, after defaults have replaced zeros. */
  method CheckThresholds(asked: Thresholds, defaults: Thresholds) returns (checked: Checked)
    ensures var t := Thresholds(OrDefault(asked.observation, defaults.observation), OrDefault(asked.stale, defaults.stale),
                                OrDefault(asked.timeout, defaults.timeout), OrDefault(asked.maxRestarts, defaults.maxRestarts));
            checked == if Accepted(t) then Checked(t) else Panicked
  {
    var t := asked;
    if t.observation == 0 { t := t.(observation := defaults.observation); }
    if t.stale == 0 { t := t.(stale := defaults.stale); }
    if t.timeout == 0 { t := t.(timeout := defaults.timeout); }
    if t.maxRestarts == 0 { t := t.(maxRestarts := defaults.maxRestarts); }
    if t.stale <= 0 { return Panicked; }
    if t.timeout <= t.stale { return Panicked; }
    if t.maxRestarts <= 0 { return Panicked; }
    if t.observation >= t.stale { return Panicked; }
    return Checked(t);
  }

  /** How often the collector was restarted since it last delivered, and when last. */
  datatype Health = Health(restarts: int, lastRestart: int)

  /** What a tick finds: the clock, the observation's instant, and the stored shutdown flag. */
  datatype Look = Look(now: int, observedAt: int, shutdown: bool)

  datatype Verdict = Pass | Pause | Backoff | Restart | Escalate

  function Wait(restarts: int): int { Seconds(2 * (restarts + 1)) }

  function VerdictOf(t: Thresholds, h: Health, l: Look): (v: Verdict)
    ensures Accepted(t) ==> (v == Pass <==> l.shutdown || l.now - l.observedAt < t.stale)
  {
    var age := l.now - l.observedAt;
    if l.shutdown || (age < t.timeout && age < t.stale) then Pass
    else if age < t.timeout then Pause
    else if h.restarts >= t.maxRestarts then Escalate
    else if h.lastRestart != 0 && l.now - h.lastRestart < Wait(h.restarts) then Backoff
    else Restart
  }

  function After(h: Health, v: Verdict, now: int): Health {
    match v
    case Pass => h.(restarts := 0)
    case Restart => Health(h.restarts + 1, now)
    case _ => h
  }

  // ----- Whole runs -----

  /** What touches the health: a tick of any of the supervisor's workers, or a worker recreated
      after a restart. */
  datatype Event = Ticked(look: Look) | Recreated

  function Next(t: Thresholds, h: Health, e: Event): Health {
    match e
    case Ticked(look) => After(h, VerdictOf(t, h, look), look.now)
    case Recreated => h.(restarts := 0)
  }

  function Run(t: Thresholds, h: Health, events: seq<Event>): Health {
    if events == [] then h else Next(t, Run(t, h, events[..|events| - 1]), events[|events| - 1])
  }

  /** A restart: when, and the how-manieth in a row. */
  datatype Entry = Entry(at: int, k: int)

  predicate Restarts(t: Thresholds, h: Health, e: Event) {
    e.Ticked? && VerdictOf(t, h, e.look) == Restart
  }

  function Log(t: Thresholds, h: Health, events: seq<Event>): seq<Entry> {
    if events == [] then []
    else
      var before, e := events[..|events| - 1], events[|events| - 1];
      var at := Run(t, h, before);
      if Restarts(t, at, e) then Log(t, h, before) + [Entry(e.look.now, at.restarts + 1)] else Log(t, h, before)
  }

  ghost predicate Clocked(events: seq<Event>) {
    forall i :: 0 <= i < |events| && events[i].Ticked? ==> events[i].look.now > 0
  }

  /** A restart comes two seconds later per attempt after the one before it, and continues the
      count or starts it again. */
  ghost predicate Follows(last: Entry, entry: Entry) {
    entry.at - last.at >= Seconds(2 * entry.k) && (entry.k == last.k + 1 || entry.k == 1)
  }

  ghost predicate Spaced(log: seq<Entry>) {
    forall i :: 0 < i < |log| ==> Follows(log[i - 1], log[i])
  }

  /** The log and the health agree. */
  ghost predicate Agrees(t: Thresholds, h: Health, log: seq<Entry>) {
    && 0 <= h.restarts <= t.maxRestarts
    && (forall i :: 0 <= i < |log| ==> 1 <= log[i].k <= t.maxRestarts)
    && (log == [] ==> h == Health(0, 0))
    && (log != [] ==> var last := log[|log| - 1];
                      h.lastRestart == last.at && last.at > 0 && (h.restarts == last.k || h.restarts == 0) && log[0].k == 1)
  }

  lemma OneMore(log: seq<Entry>, entry: Entry)
    requires Spaced(log) && (log != [] ==> Follows(log[|log| - 1], entry))
    ensures Spaced(log + [entry])
  {
  }

  lemma RestartFollows(t: Thresholds, h: Health, last: Entry, look: Look)
    requires h.lastRestart == last.at && last.at > 0 && (h.restarts == last.k || h.restarts == 0)
    requires VerdictOf(t, h, look) == Restart
    ensures Follows(last, Entry(look.now, h.restarts + 1))
  {
  }

  lemma StepAgrees(t: Thresholds, h: Health, log: seq<Entry>, e: Event)
    requires Accepted(t) && Agrees(t, h, log) && Spaced(log) && (e.Ticked? ==> e.look.now > 0)
    ensures !Restarts(t, h, e) ==> Agrees(t, Next(t, h, e), log)
    ensures Restarts(t, h, e) ==> var log' := log + [Entry(e.look.now, h.restarts + 1)];
                                  Agrees(t, Next(t, h, e), log') && Spaced(log')
  {
    if Restarts(t, h, e) {
      if log != [] { RestartFollows(t, h, log[|log| - 1], e.look); }
      OneMore(log, Entry(e.look.now, h.restarts + 1));
    }
  }

  /** Over every run: the count stays between zero and the maximum, and the k-th restart in a row
      comes at least 2k seconds after the restart before it. */
  lemma {:induction false} RestartsAreBounded(t: Thresholds, events: seq<Event>)
    requires Accepted(t) && Clocked(events)
    ensures Agrees(t, Run(t, Health(0, 0), events), Log(t, Health(0, 0), events))
    ensures Spaced(Log(t, Health(0, 0), events))
  {
    if events != [] {
      var before := events[..|events| - 1];
      RestartsAreBounded(t, before);
      StepAgrees(t, Run(t, Health(0, 0), before), Log(t, Health(0, 0), before), events[|events| - 1]);
    }
  }

  /** Nothing between positions `i` and `j` starts the count again. */
  ghost predicate InARow(log: seq<Entry>, i: nat, j: nat)
    requires j < |log|
  {
    forall m :: i < m <= j ==> log[m].k != 1
  }

  /** So reaching the n-th restart in a row takes n * (n + 1) - 2 seconds from the first. */
  lemma {:induction false} RestartsTakeTime(log: seq<Entry>, i: nat, j: nat)
    requires Spaced(log) && i <= j < |log| && InARow(log, i, j)
    ensures log[j].k == log[i].k + (j - i)
    ensures log[j].at - log[i].at >= Seconds(log[j].k * (log[j].k + 1) - log[i].k * (log[i].k + 1))
  {
    if i < j {
      RestartsTakeTime(log, i, j - 1);
      var k := log[j].k;
      assert log[j - 1].k == k - 1;
      assert k * (k + 1) - (k - 1) * k == 2 * k;
    }
  }

  /** No tick passes the gate and no worker is recreated. */
  ghost predicate Unrecovered(t: Thresholds, events: seq<Event>) {
    forall i :: 0 <= i < |events| ==>
      events[i].Ticked? && !events[i].look.shutdown && events[i].look.now - events[i].look.observedAt >= t.stale
  }

  /** Without a recovery every restart counts, so at most `maxRestarts` happen. */
  lemma {:induction false} RestartsUntilRecovery(t: Thresholds, h: Health, events: seq<Event>)
    requires Accepted(t) && 0 <= h.restarts <= t.maxRestarts && Unrecovered(t, events)
    ensures Run(t, h, events).restarts == h.restarts + |Log(t, h, events)| <= t.maxRestarts
  {
    if events != [] {
      var before, e := events[..|events| - 1], events[|events| - 1];
      assert forall i :: 0 <= i < |before| ==> before[i] == events[i];
      RestartsUntilRecovery(t, h, before);
    }
  }

  /** And once the maximum is reached, until a recovery: nothing changes, nothing is restarted, and
      every timed-out tick escalates to a shutdown request. */
  lemma {:induction false} AfterTheMaximumOnlyEscalation(t: Thresholds, h: Health, events: seq<Event>, look: Look)
    requires Accepted(t) && h.restarts == t.maxRestarts && Unrecovered(t, events + [Ticked(look)])
    ensures Run(t, h, events) == h && Log(t, h, events) == []
    ensures VerdictOf(t, Run(t, h, events), look) == if look.now - look.observedAt >= t.timeout then Escalate else Pause
  {
    var all := events + [Ticked(look)];
    assert Ticked(look) == all[|all| - 1];
    if events != [] {
      var before, last := events[..|events| - 1], events[|events| - 1];
      assert forall i :: 0 <= i < |events| ==> events[i] == all[i];
      assert before + [Ticked(last.look)] == events;
      AfterTheMaximumOnlyEscalation(t, h, before, last.look);
    }
  }
}
