/** Alerts: hysteresis, silences and notification scheduling
    (controller/guardian/alerting.py:44-252, controller/guardian/api.py:3642-3658).
    Instants are seconds. */
module Alerts {
  import opened Base

  /** `Quiet` is the state the database calls "ok". */
  datatype State = Quiet | Pending | Firing | Acknowledged | Silenced | Resolved | Closed

  datatype Rule = Rule(
    id: string, sourceType: string, sourceId: string, severity: string, groupKey: string,
    failureThreshold: int, recoveryThreshold: int, repeatSeconds: int, recoveryNotices: bool)

  /** A stored silence, or a maintenance window when `alert` is absent. */
  datatype Mute = Mute(alert: Option<string>, matchers: map<string, string>, starts: int, ends: int)

  datatype Channel = Channel(id: string, enabled: bool, eventScope: set<Kind>, severities: set<string>)

  datatype Kind = FiringNotice | ResolvedNotice | Reminder

  datatype Notice = Notice(kind: Kind, at: int, channels: seq<string>)

  datatype Transition = Transition(before: State, after: State, at: int)

  datatype Alert = Alert(
    state: State, failures: nat, successes: nat, silencedUntil: Option<int>,
    firedAt: Option<int>, resolvedAt: Option<int>, notifiedAt: Option<int>,
    log: seq<Transition>, sent: seq<Notice>)

  const NEW: Alert := Alert(Quiet, 0, 0, None, None, None, None, [], [])

  /** One check result, with what the database holds at that moment. */
  datatype Observation = Observation(
    success: bool, rule: Rule, windows: seq<Mute>, channels: seq<Channel>, now: int)

  // ---------------------------------------------------------------- what mutes an alert

  function Labels(r: Rule): map<string, string> {
    map["rule_id" := r.id, "source_type" := r.sourceType, "source_id" := r.sourceId,
        "severity" := r.severity, "group_key" := r.groupKey]
  }

  predicate Matches(matchers: map<string, string>, r: Rule) {
    forall key | key in matchers :: key in Labels(r) && Labels(r)[key] == matchers[key]
  }

  predicate ActiveAt(m: Mute, now: int) {
    m.starts <= now < m.ends
  }

  /** An active silence that names the alert or matches its rule. */
  predicate SilencedBy(m: Mute, id: string, o: Observation) {
    ActiveAt(m, o.now) && (m.alert == Some(id) || Matches(m.matchers, o.rule))
  }

  predicate InWindow(o: Observation) {
    exists w <- o.windows :: ActiveAt(w, o.now) && Matches(w.matchers, o.rule)
  }

  predicate Suppressed(a: Alert, id: string, silences: seq<Mute>, o: Observation) {
    || (a.silencedUntil.Some? && a.silencedUntil.value > o.now)
    || (exists m <- silences :: SilencedBy(m, id, o))
    || InWindow(o)
  }

  // ---------------------------------------------------------------- one observation

  function StateAfterSuccess(was: State, successes: nat, r: Rule): State {
    if was == Resolved then Quiet
    else if was != Quiet && successes >= r.recoveryThreshold then Resolved
    else was
  }

  function StateAfterFailure(was: State, failures: nat, suppressed: bool, r: Rule): State {
    if suppressed then Silenced
    else if was == Acknowledged || was == Firing then was
    else if failures >= r.failureThreshold then Firing
    else Pending
  }

  predicate Wants(c: Channel, kind: Kind, severity: string) {
    && c.enabled
    && (c.eventScope == {} || kind in c.eventScope)
    && (c.severities == {} || severity in c.severities)
  }

  function Recipients(channels: seq<Channel>, kind: Kind, severity: string): seq<string> {
    if channels == [] then []
    else
      var c := channels[|channels| - 1];
      Recipients(channels[..|channels| - 1], kind, severity) + if Wants(c, kind, severity) then [c.id] else []
  }

  /** The kind of notice an observation calls for, if any. */
  function Calls(a: Alert, o: Observation, next: State): Option<Kind> {
    if next == Resolved && a.state != Resolved && o.success && o.rule.recoveryNotices then Some(ResolvedNotice)
    else if next == Firing && !o.success && a.state != Firing then Some(FiringNotice)
    else if next == Firing && !o.success && a.notifiedAt.Some? && o.now - a.notifiedAt.value >= o.rule.repeatSeconds
    then Some(Reminder)
    else None
  }

  function Notified(a: Alert, kind: Kind, o: Observation): Alert {
    var to := Recipients(o.channels, kind, o.rule.severity);
    if to == [] then a else a.(notifiedAt := Some(o.now), sent := a.sent + [Notice(kind, o.now, to)])
  }

  function Moved(a: Alert, next: State, now: int): Alert {
    if a.state == next then a
    else a.(state := next, log := a.log + [Transition(a.state, next, now)])
  }

  /** The alert with its counters advanced. */
  function Counted(a: Alert, success: bool): Alert {
    if success then a.(successes := a.successes + 1, failures := 0)
    else a.(failures := a.failures + 1, successes := 0)
  }

  function NextState(a: Alert, id: string, silences: seq<Mute>, o: Observation): State {
    if o.success then StateAfterSuccess(a.state, a.successes + 1, o.rule)
    else StateAfterFailure(a.state, a.failures + 1, Suppressed(a, id, silences, o), o.rule)
  }

  function Stamped(a: Alert, next: State, o: Observation): Alert {
    if next == Resolved && a.state != Resolved && o.success then a.(resolvedAt := Some(o.now))
    else if next == Firing && a.state != Firing then
      a.(firedAt := if a.firedAt.Some? then a.firedAt else Some(o.now), resolvedAt := None)
    else a
  }

  function Observed(a: Alert, id: string, silences: seq<Mute>, o: Observation): Alert {
    var next := NextState(a, id, silences, o);
    var b := Moved(Stamped(Counted(a, o.success), next, o), next, o.now);
    match Calls(a, o, next)
    case None => b
    case Some(kind) => Notified(b, kind, o)
  }

  predicate MayAcknowledge(a: Alert) {
    a.state == Firing || a.state == Pending
  }

  predicate MaySilence(until: int, now: int) {
    now < until <= now + 2592000
  }

  predicate MayClose(a: Alert) {
    a.state == Acknowledged || a.state == Resolved
  }

  function SilencedAlert(a: Alert, until: int, now: int): Alert {
    Moved(a, Silenced, now).(silencedUntil := Some(until))
  }

  // ---------------------------------------------------------------- the stored alert

  class AlertInstance {
    const id: string
    var state: State
    var failures: nat
    var successes: nat
    var silencedUntil: Option<int>
    var firedAt: Option<int>
    var resolvedAt: Option<int>
    var notifiedAt: Option<int>
    var log: seq<Transition>
    var sent: seq<Notice>

    function View(): Alert
      reads this
    {
      Alert(state, failures, successes, silencedUntil, firedAt, resolvedAt, notifiedAt, log, sent)
    }

    constructor (id: string)
      ensures this.id == id && View() == NEW
    {
      this.id := id;
      state, failures, successes := Quiet, 0, 0;
      silencedUntil, firedAt, resolvedAt, notifiedAt := None, None, None, None;
      log, sent := [], [];
    }

    method RecordTransition(previous: State, now: int)
      modifies this`log
      ensures log == if previous == state then old(log) else old(log) + [Transition(previous, state, now)]
    {
      if previous == state {
        return;
      }
      log := log + [Transition(previous, state, now)];
    }

    /** One delivery row for every enabled channel whose filters pass; the alert is stamped
        only when there was one. */
    method ScheduleNotifications(kind: Kind, o: Observation) returns (scheduled: bool)
      modifies this`notifiedAt, this`sent
      ensures View() == Notified(old(View()), kind, o)
      ensures scheduled <==> Recipients(o.channels, kind, o.rule.severity) != []
    {
      var to: seq<string> := [];
      for i := 0 to |o.channels|
        invariant to == Recipients(o.channels[..i], kind, o.rule.severity)
      {
        var c := o.channels[i];
        assert o.channels[..i + 1][..i] == o.channels[..i];
        if c.enabled && (c.eventScope == {} || kind in c.eventScope)
           && (c.severities == {} || o.rule.severity in c.severities) {
          to := to + [c.id];
        }
      }
      assert o.channels[..|o.channels|] == o.channels;
      scheduled := to != [];
      if scheduled {
        notifiedAt := Some(o.now);
        sent := sent + [Notice(kind, o.now, to)];
      }
    }

    method Observe(o: Observation, silences: seq<Mute>) returns (changed: bool, scheduled: bool)
      modifies this
      ensures View() == Observed(old(View()), id, silences, o)
      ensures changed <==> state != old(state)
      ensures scheduled <==> sent != old(sent)
    {
      var previous := state;
      var event: Option<Kind> := None;
      if o.success {
        successes, failures := successes + 1, 0;
        if previous == Resolved {
          state := Quiet;
        } else if previous != Quiet && successes >= o.rule.recoveryThreshold {
          state := Resolved;
          resolvedAt := Some(o.now);
          if o.rule.recoveryNotices {
            event := Some(ResolvedNotice);
          }
        }
      } else {
        failures, successes := failures + 1, 0;
        if Suppressed(View(), id, silences, o) {
          state := Silenced;
        } else if previous == Acknowledged || previous == Firing {
          state := previous;
        } else if failures >= o.rule.failureThreshold {
          state := Firing;
          firedAt := if firedAt.Some? then firedAt else Some(o.now);
          resolvedAt := None;
          event := Some(FiringNotice);
        } else {
          state := Pending;
        }
      }
      changed := previous != state;
      assert state == NextState(old(View()), id, silences, o);
      RecordTransition(previous, o.now);
      assert View() == Moved(Stamped(Counted(old(View()), o.success), state, o), state, o.now);
      scheduled := false;
      if event.Some? && changed {
        scheduled := ScheduleNotifications(event.value, o);
      } else if !o.success && state == Firing && notifiedAt.Some?
                && o.now - notifiedAt.value >= o.rule.repeatSeconds {
        scheduled := ScheduleNotifications(Reminder, o);
      }
    }

    method Acknowledge(now: int) returns (ok: bool)
      modifies this`state, this`log
      ensures ok <==> MayAcknowledge(old(View()))
      ensures View() == if ok then Moved(old(View()), Acknowledged, now) else old(View())
    {
      if state != Firing && state != Pending {
        return false;
      }
      var previous := state;
      state := Acknowledged;
      RecordTransition(previous, now);
      return true;
    }

    method Silence(until: int, now: int) returns (row: Option<Mute>)
      modifies this`state, this`log, this`silencedUntil
      ensures row == if MaySilence(until, now) then Some(Mute(Some(id), map[], now, until)) else None
      ensures View() == if row.Some? then SilencedAlert(old(View()), until, now) else old(View())
    {
      if until <= now || until > now + 2592000 {
        return None;
      }
      var previous := state;
      state := Silenced;
      silencedUntil := Some(until);
      RecordTransition(previous, now);
      return Some(Mute(Some(id), map[], now, until));
    }

    method Close(now: int) returns (ok: bool)
      modifies this`state, this`log
      ensures ok <==> MayClose(old(View()))
      ensures View() == if ok then Moved(old(View()), Closed, now) else old(View())
    {
      if state != Acknowledged && state != Resolved {
        return false;
      }
      log := log + [Transition(state, Closed, now)];
      state := Closed;
      return true;
    }
  }

  // ---------------------------------------------------------------- runs over all alerts

  datatype Event =
    | Observe(id: string, o: Observation)
    | Acknowledge(id: string, now: int)
    | Silence(id: string, until: int, now: int)
    | Close(id: string, now: int)

  datatype World = World(alerts: map<string, Alert>, silences: seq<Mute>)

  function AlertOf(w: World, id: string): Alert {
    if id in w.alerts then w.alerts[id] else NEW
  }

  function TimeOf(e: Event): int {
    match e
    case Observe(_, o) => o.now
    case Acknowledge(_, now) => now
    case Silence(_, _, now) => now
    case Close(_, now) => now
  }

  /** The event silences its alert. */
  predicate Silences(w: World, e: Event) {
    e.Silence? && e.id in w.alerts && MaySilence(e.until, e.now)
  }

  /** What the event does to the alert it names. */
  function Changed(w: World, e: Event): Alert {
    var a := AlertOf(w, e.id);
    match e
    case Observe(id, o) => Observed(a, id, w.silences, o)
    case Acknowledge(_, now) => if MayAcknowledge(a) then Moved(a, Acknowledged, now) else a
    case Silence(_, until, now) => if MaySilence(until, now) then SilencedAlert(a, until, now) else a
    case Close(_, now) => if MayClose(a) then Moved(a, Closed, now) else a
  }

  /** An observation creates its alert; the other three need one. */
  function Step(w: World, e: Event): World {
    if !e.Observe? && e.id !in w.alerts then w
    else
      World(w.alerts[e.id := Changed(w, e)],
            if Silences(w, e) then w.silences + [Mute(Some(e.id), map[], e.now, e.until)] else w.silences)
  }

  function After(events: seq<Event>): World {
    if events == [] then World(map[], []) else Step(After(events[..|events| - 1]), events[|events| - 1])
  }

  ghost predicate ClockRuns(events: seq<Event>) {
    forall i, j | 0 <= i < j < |events| :: TimeOf(events[i]) <= TimeOf(events[j])
  }

  /** One event changes no other alert. */
  lemma OthersKeep(w: World, e: Event, id: string)
    ensures AlertOf(Step(w, e), id) ==
            if e.id == id && (e.Observe? || e.id in w.alerts) then Changed(w, e) else AlertOf(w, id)
  {
  }

  // ---------------------------------------------------------------- the counters

  /** The results observed for one alert, oldest first. */
  function Results(events: seq<Event>, id: string): seq<bool> {
    if events == [] then []
    else
      Results(events[..|events| - 1], id) + Adds(events[|events| - 1], id)
  }

  /** The length of the run of `kind` that a history ends with. */
  function Run(results: seq<bool>, kind: bool): nat {
    if results != [] && results[|results| - 1] == kind then 1 + Run(results[..|results| - 1], kind) else 0
  }

  /** The run is the longest suffix made of that result only. */
  lemma {:induction false} RunIsTheLongestSuffix(results: seq<bool>, kind: bool, n: nat)
    requires n <= |results|
    ensures Run(results, kind) <= |results|
    ensures n <= Run(results, kind) <==> forall i | |results| - n <= i < |results| :: results[i] == kind
  {
    if results != [] && n > 0 {
      var init := results[..|results| - 1];
      RunIsTheLongestSuffix(init, kind, n - 1);
      if forall i | |init| - (n - 1) <= i < |init| :: init[i] == kind {
        assert forall i | |results| - n <= i < |init| :: results[i] == init[i];
      } else {
        var i :| |init| - (n - 1) <= i < |init| && init[i] != kind;
        assert results[i] != kind;
      }
      if results[|results| - 1] != kind {
        assert !(forall i | |results| - n <= i < |results| :: results[i] == kind);
      }
    } else {
      RunIsShort(results, kind);
    }
  }

  lemma {:induction false} RunIsShort(results: seq<bool>, kind: bool)
    ensures Run(results, kind) <= |results|
  {
    if results != [] {
      RunIsShort(results[..|results| - 1], kind);
    }
  }

  /** What one event adds to one alert's history. */
  function Adds(e: Event, id: string): seq<bool> {
    if e.Observe? && e.id == id then [e.o.success] else []
  }

  lemma ObservedCounts(a: Alert, id: string, silences: seq<Mute>, o: Observation)
    ensures var b := Observed(a, id, silences, o);
            b.failures == Counted(a, o.success).failures && b.successes == Counted(a, o.success).successes
  {
  }

  lemma RunGrows(results: seq<bool>, more: seq<bool>, kind: bool)
    requires |more| <= 1
    ensures Run(results + more, kind) ==
            if more == [] then Run(results, kind) else if more == [kind] then Run(results, kind) + 1 else 0
  {
    if more == [] {
      assert results + more == results;
    } else {
      assert (results + more)[..|results|] == results;
    }
  }

  /** The two counters are the lengths of the runs the history ends with. */
  predicate CountsRuns(a: Alert, results: seq<bool>) {
    a.failures == Run(results, false) && a.successes == Run(results, true)
  }

  lemma StepCounts(w: World, e: Event, id: string, results: seq<bool>)
    requires CountsRuns(AlertOf(w, id), results)
    ensures CountsRuns(AlertOf(Step(w, e), id), results + Adds(e, id))
  {
    OthersKeep(w, e, id);
    RunGrows(results, Adds(e, id), false);
    RunGrows(results, Adds(e, id), true);
    if e.Observe? && e.id == id {
      ObservedCounts(AlertOf(w, id), id, w.silences, e.o);
    } else if e.id == id && id in w.alerts {
      OperatorsCountNothing(w, e);
    }
  }

  lemma OperatorsCountNothing(w: World, e: Event)
    requires !e.Observe?
    ensures var a, b := AlertOf(w, e.id), Changed(w, e);
            b.failures == a.failures && b.successes == a.successes && b.sent == a.sent
  {
  }

  /** Main result: the two counters are the lengths of the trailing failure and success runs. */
  lemma {:induction false} CountersAreRuns(events: seq<Event>, id: string)
    ensures CountsRuns(AlertOf(After(events), id), Results(events, id))
  {
    if events != [] {
      var init, e := events[..|events| - 1], events[|events| - 1];
      CountersAreRuns(init, id);
      StepCounts(After(init), e, id, Results(init, id));
    }
  }

  /** The last event is a failure of the alert that nothing suppresses, nobody acknowledged the
      alert, it is not firing yet, and the trailing failure run meets the threshold. */
  predicate FailureCounts(events: seq<Event>, id: string)
    requires events != []
  {
    var w, e := After(events[..|events| - 1]), events[|events| - 1];
    && e.Observe? && e.id == id && !e.o.success
    && !Suppressed(AlertOf(w, id), id, w.silences, e.o)
    && AlertOf(w, id).state != Firing && AlertOf(w, id).state != Acknowledged
    && Run(Results(events, id), false) >= e.o.rule.failureThreshold
  }

  /** The last event is a success of the alert, which is neither quiet nor resolved, and the
      trailing success run meets the threshold. */
  predicate RecoveryCounts(events: seq<Event>, id: string)
    requires events != []
  {
    var w, e := After(events[..|events| - 1]), events[|events| - 1];
    && e.Observe? && e.id == id && e.o.success
    && AlertOf(w, id).state != Resolved && AlertOf(w, id).state != Quiet
    && Run(Results(events, id), true) >= e.o.rule.recoveryThreshold
  }

  /** Main result: whatever the event, an alert enters firing exactly on an unsuppressed failure
      whose trailing run meets the threshold, and resolved exactly on a success whose run meets
      its own; acknowledging, silencing and closing enter neither. */
  lemma EntriesMeetTheirThreshold(events: seq<Event>, id: string)
    requires events != []
    ensures var was := AlertOf(After(events[..|events| - 1]), id).state;
            var now := AlertOf(After(events), id).state;
            && (was != Firing && now == Firing <==> FailureCounts(events, id))
            && (was != Resolved && now == Resolved <==> RecoveryCounts(events, id))
  {
    var init, e := events[..|events| - 1], events[|events| - 1];
    var w := After(init);
    OthersKeep(w, e, id);
    if e.Observe? && e.id == id {
      CountersAreRuns(events, id);
      EntriesByCounter(AlertOf(w, id), id, w.silences, e.o);
    } else if e.id == id && id in w.alerts {
      OperatorsEnterNeither(w, e);
    }
  }

  lemma OperatorsEnterNeither(w: World, e: Event)
    requires !e.Observe?
    ensures Changed(w, e).state in {AlertOf(w, e.id).state, Acknowledged, Silenced, Closed}
  {
  }

  lemma EntriesByCounter(a: Alert, id: string, silences: seq<Mute>, o: Observation)
    ensures var b := Observed(a, id, silences, o);
            && (a.state != Firing && b.state == Firing <==>
                && !o.success && !Suppressed(a, id, silences, o) && a.state != Firing && a.state != Acknowledged
                && b.failures >= o.rule.failureThreshold)
            && (a.state != Resolved && b.state == Resolved <==>
                && o.success && a.state != Resolved && a.state != Quiet && b.successes >= o.rule.recoveryThreshold)
  {
    ObservedMoves(a, id, silences, o);
  }

  // ---------------------------------------------------------------- the log

  /** The moves an alert can make. */
  predicate Edge(before: State, after: State) {
    before != after &&
    match after
    case Quiet => before == Resolved
    case Pending => before != Firing && before != Acknowledged
    case Firing => before != Acknowledged
    case Acknowledged => before == Firing || before == Pending
    case Silenced => true
    case Resolved => before != Quiet
    case Closed => before == Acknowledged || before == Resolved
  }

  /** The log leads from one state to another, every entry starting where the last ended. */
  predicate Leads(log: seq<Transition>, from: State, to: State) {
    if log == [] then from == to
    else
      var t := log[|log| - 1];
      t.after == to && Edge(t.before, t.after) && Leads(log[..|log| - 1], from, t.before)
  }

  lemma MovedLeads(a: Alert, next: State, now: int)
    requires Leads(a.log, Quiet, a.state) && (a.state == next || Edge(a.state, next))
    ensures Leads(Moved(a, next, now).log, Quiet, next)
  {
    assert (a.log + [Transition(a.state, next, now)])[..|a.log|] == a.log;
  }

  lemma ObservedMoves(a: Alert, id: string, silences: seq<Mute>, o: Observation)
    ensures var b := Observed(a, id, silences, o);
            && (a.state == b.state || Edge(a.state, b.state))
            && b.state == NextState(a, id, silences, o)
            && b.log == Moved(a, b.state, o.now).log
  {
  }

  /** Main result: every alert's log is a connected path of allowed moves from quiet to the
      state the alert is in. */
  lemma {:induction false} LogIsAPath(events: seq<Event>, id: string)
    ensures Leads(AlertOf(After(events), id).log, Quiet, AlertOf(After(events), id).state)
  {
    if events != [] {
      var init, e := events[..|events| - 1], events[|events| - 1];
      LogIsAPath(init, id);
      OthersKeep(After(init), e, id);
      var a := AlertOf(After(init), id);
      var b := AlertOf(After(events), id);
      if e.id == id && (e.Observe? || id in After(init).alerts) {
        if e.Observe? {
          ObservedMoves(a, id, After(init).silences, e.o);
        }
        if a.state == b.state || Edge(a.state, b.state) {
          MovedLeads(a, b.state, TimeOf(e));
        }
      }
    }
  }

  /** The first time the log enters firing. */
  function FirstFiring(log: seq<Transition>): Option<int> {
    if log == [] then None
    else
      var earlier := FirstFiring(log[..|log| - 1]);
      if earlier.Some? then earlier
      else if log[|log| - 1].after == Firing then Some(log[|log| - 1].at)
      else None
  }

  lemma FirstFiringMoves(a: Alert, next: State, now: int)
    ensures FirstFiring(Moved(a, next, now).log) ==
            if FirstFiring(a.log).None? && next == Firing && a.state != Firing then Some(now) else FirstFiring(a.log)
  {
    assert (a.log + [Transition(a.state, next, now)])[..|a.log|] == a.log;
  }

  predicate FiredAtKept(a: Alert) {
    a.firedAt == FirstFiring(a.log)
  }

  lemma ObservedFires(a: Alert, id: string, silences: seq<Mute>, o: Observation)
    requires FiredAtKept(a)
    ensures FiredAtKept(Observed(a, id, silences, o))
  {
    ObservedMoves(a, id, silences, o);
    FirstFiringMoves(a, NextState(a, id, silences, o), o.now);
  }

  lemma StepFires(w: World, e: Event, id: string)
    requires FiredAtKept(AlertOf(w, id))
    ensures FiredAtKept(AlertOf(Step(w, e), id))
  {
    OthersKeep(w, e, id);
    var a := AlertOf(w, id);
    match e
    case Observe(i, o) => if i == id { ObservedFires(a, id, w.silences, o); }
    case Acknowledge(_, now) => FirstFiringMoves(a, Acknowledged, now);
    case Silence(_, _, now) => FirstFiringMoves(a, Silenced, now);
    case Close(_, now) => FirstFiringMoves(a, Closed, now);
  }

  /** The stored firing time is that of the first firing ever, across recoveries. */
  lemma {:induction false} FiredAtIsTheFirstFiring(events: seq<Event>, id: string)
    ensures AlertOf(After(events), id).firedAt == FirstFiring(AlertOf(After(events), id).log)
  {
    if events != [] {
      FiredAtIsTheFirstFiring(events[..|events| - 1], id);
      StepFires(After(events[..|events| - 1]), events[|events| - 1], id);
    }
  }

  // ---------------------------------------------------------------- notices

  /** The alert remembers when its latest notice was, the notices are in order, none is later
      than `now`, and the first is no reminder. */
  ghost predicate NoticesKept(a: Alert, now: int) {
    && (a.sent == [] <==> a.notifiedAt.None?)
    && (a.sent != [] ==> a.notifiedAt == Some(a.sent[|a.sent| - 1].at) && a.sent[0].kind != Reminder)
    && (forall i | 0 <= i < |a.sent| :: a.sent[i].at <= now && a.sent[i].at <= a.notifiedAt.value)
  }

  lemma NotifiedKeeps(a: Alert, kind: Kind, o: Observation, now: int)
    requires NoticesKept(a, now) && now <= o.now
    requires kind == Reminder ==> a.notifiedAt.Some?
    ensures NoticesKept(Notified(a, kind, o), o.now)
  {
  }

  lemma ObservedKeepsNotices(a: Alert, id: string, silences: seq<Mute>, o: Observation, now: int)
    requires NoticesKept(a, now) && now <= o.now
    ensures NoticesKept(Observed(a, id, silences, o), o.now)
  {
    var next := NextState(a, id, silences, o);
    var b := Moved(Stamped(Counted(a, o.success), next, o), next, o.now);
    assert NoticesKept(b, now);
    match Calls(a, o, next)
    case None =>
    case Some(kind) => NotifiedKeeps(b, kind, o, now);
  }

  lemma {:induction false} NoticesAreKept(events: seq<Event>, id: string, now: int)
    requires ClockRuns(events) && forall i | 0 <= i < |events| :: TimeOf(events[i]) <= now
    ensures NoticesKept(AlertOf(After(events), id), now)
  {
    if events != [] {
      var init, e := events[..|events| - 1], events[|events| - 1];
      assert forall i | 0 <= i < |init| :: init[i] == events[i];
      assert e == events[|init|];
      NoticesAreKept(init, id, TimeOf(e));
      OthersKeep(After(init), e, id);
      if e.Observe? && e.id == id {
        ObservedKeepsNotices(AlertOf(After(init), id), id, After(init).silences, e.o, TimeOf(e));
      }
    }
  }

  /** Main result: a reminder is sent only by a failure of a firing alert, at least the repeat
      interval after every notice sent before it, and it is never the first notice. */
  lemma RemindersAreSpaced(events: seq<Event>, id: string)
    requires events != [] && ClockRuns(events)
    requires var sent := AlertOf(After(events), id).sent;
             sent != AlertOf(After(events[..|events| - 1]), id).sent && sent[|sent| - 1].kind == Reminder
    ensures var e := events[|events| - 1];
            var a := AlertOf(After(events[..|events| - 1]), id);
            && e.Observe? && e.id == id && !e.o.success && a.state == Firing
            && a.sent != []
            && AlertOf(After(events), id).sent[..|a.sent|] == a.sent
            && forall i | 0 <= i < |a.sent| :: e.o.now - a.sent[i].at >= e.o.rule.repeatSeconds
  {
    var init, e := events[..|events| - 1], events[|events| - 1];
    BeforeTheLast(events);
    NoticesAreKept(init, id, TimeOf(e));
    OthersKeep(After(init), e, id);
    var a := AlertOf(After(init), id);
    if e.id == id && e.Observe? {
      ReminderWasDue(a, id, After(init).silences, e.o);
    } else if e.id == id && id in After(init).alerts {
      OperatorsCountNothing(After(init), e);
    }
  }

  lemma BeforeTheLast(events: seq<Event>)
    requires events != [] && ClockRuns(events)
    ensures var init, e := events[..|events| - 1], events[|events| - 1];
            ClockRuns(init) && forall i | 0 <= i < |init| :: TimeOf(init[i]) <= TimeOf(e)
  {
    var init, e := events[..|events| - 1], events[|events| - 1];
    assert e == events[|init|];
    assert forall i | 0 <= i < |init| :: init[i] == events[i];
  }

  /** An observation that sends a reminder found the alert firing and the interval over. */
  lemma ReminderWasDue(a: Alert, id: string, silences: seq<Mute>, o: Observation)
    ensures var sent := Observed(a, id, silences, o).sent;
            && a.sent <= sent
            && (sent != a.sent && sent[|sent| - 1].kind == Reminder ==>
                  !o.success && a.state == Firing && a.notifiedAt.Some?
                  && o.now - a.notifiedAt.value >= o.rule.repeatSeconds)
  {
    ObservedMoves(a, id, silences, o);
  }

  // ---------------------------------------------------------------- silences

  /** Every stored silence was made for one alert, carries no matcher and started by `now`;
      an alert's own end of silence is that of one of them. */
  ghost predicate SilencesKept(w: World, now: int) {
    && (forall m <- w.silences :: m.alert.Some? && m.matchers == map[] && m.starts <= now)
    && (forall id | id in w.alerts && w.alerts[id].silencedUntil.Some? ::
          exists m <- w.silences :: m.ends == w.alerts[id].silencedUntil.value)
  }

  lemma StepKeepsSilences(w: World, e: Event, now: int)
    requires SilencesKept(w, now) && now <= TimeOf(e)
    ensures SilencesKept(Step(w, e), TimeOf(e))
  {
    var v := Step(w, e);
    forall id | id in v.alerts && v.alerts[id].silencedUntil.Some?
      ensures exists m <- v.silences :: m.ends == v.alerts[id].silencedUntil.value
    {
      if Silences(w, e) && id == e.id {
        assert Mute(Some(e.id), map[], e.now, e.until) in v.silences;
      } else {
        assert id in w.alerts && w.alerts[id].silencedUntil == v.alerts[id].silencedUntil;
        var m :| m in w.silences && m.ends == w.alerts[id].silencedUntil.value;
        assert m in v.silences;
      }
    }
  }

  lemma {:induction false} SilencesAreKept(events: seq<Event>, now: int)
    requires ClockRuns(events) && forall i | 0 <= i < |events| :: TimeOf(events[i]) <= now
    ensures SilencesKept(After(events), now)
  {
    if events != [] {
      var init, e := events[..|events| - 1], events[|events| - 1];
      assert forall i | 0 <= i < |init| :: init[i] == events[i];
      assert e == events[|init|];
      SilencesAreKept(init, TimeOf(e));
      StepKeepsSilences(After(init), e, TimeOf(e));
    }
  }

  /** Main result: a silence carries the empty matcher, which every rule meets. So whether a
      failure is suppressed does not depend on which alert was silenced: it is suppressed
      exactly while any alert's silence runs, or in a matching maintenance window. */
  lemma SuppressionIsGlobal(events: seq<Event>, id: string, o: Observation)
    requires ClockRuns(events) && forall i | 0 <= i < |events| :: TimeOf(events[i]) <= o.now
    ensures var w := After(events);
            Suppressed(AlertOf(w, id), id, w.silences, o) <==>
            InWindow(o) || exists m <- w.silences :: o.now < m.ends
  {
    SilencesAreKept(events, o.now);
    var w := After(events);
    var a := AlertOf(w, id);
    if a.silencedUntil.Some? && a.silencedUntil.value > o.now {
      var m :| m in w.silences && m.ends == a.silencedUntil.value;
      assert o.now < m.ends;
    }
    if m :| m in w.silences && o.now < m.ends {
      assert SilencedBy(m, id, o);
    }
  }

  /** An accepted silence is never forgotten. */
  lemma {:induction false} SilencesStay(events: seq<Event>, i: nat)
    requires i < |events| && Silences(After(events[..i]), events[i])
    ensures Mute(Some(events[i].id), map[], events[i].now, events[i].until) in After(events).silences
  {
    var init := events[..|events| - 1];
    if i < |init| {
      assert init[..i] == events[..i];
      SilencesStay(init, i);
    }
  }

  lemma MutedFailure(w: World, id: string, o: Observation, m: Mute)
    requires m in w.silences && SilencedBy(m, id, o) && !o.success
    ensures AlertOf(Step(w, Observe(id, o)), id).state == Silenced
  {
    assert Suppressed(AlertOf(w, id), id, w.silences, o);
    OthersKeep(w, Observe(id, o), id);
    ObservedMoves(AlertOf(w, id), id, w.silences, o);
  }

  /** Silencing one alert silences the next failure of every other one until it ends. */
  lemma OneSilenceMutesAll(events: seq<Event>, i: nat, id: string, o: Observation)
    requires i < |events| && Silences(After(events[..i]), events[i])
    requires events[i].now <= o.now < events[i].until && !o.success
    ensures AlertOf(After(events + [Observe(id, o)]), id).state == Silenced
  {
    SilencesStay(events, i);
    var m := Mute(Some(events[i].id), map[], events[i].now, events[i].until);
    assert (events + [Observe(id, o)])[..|events|] == events;
    MutedFailure(After(events), id, o, m);
  }
}
