/** What alerts do over a run, in terms of the events alone: which failures are silenced, what every
    event moves, and who is notified when (controller/guardian/alerting.py:39-252). */
module AlertRuns {
  import opened Base
  import opened Alerts

  // ---------------------------------------------------------------- which failures are silenced

  /** Every matcher names one of the five labels of the rule and has its value. */
  predicate MeetsAll(matchers: map<string, string>, r: Rule) {
    forall key <- matchers ::
      || (key == "rule_id" && matchers[key] == r.id)
      || (key == "source_type" && matchers[key] == r.sourceType)
      || (key == "source_id" && matchers[key] == r.sourceId)
      || (key == "severity" && matchers[key] == r.severity)
      || (key == "group_key" && matchers[key] == r.groupKey)
  }

  lemma MatchesIff(matchers: map<string, string>, r: Rule)
    ensures Matches(matchers, r) <==> MeetsAll(matchers, r)
  {
  }

  /** The alert had been observed before event `i`. */
  predicate Known(events: seq<Event>, i: nat, id: string)
    requires i <= |events|
  {
    exists j :: 0 <= j < i && events[j].Observe? && events[j].id == id
  }

  /** Event `i` silences a known alert for at most 30 days. */
  predicate SilencesOne(events: seq<Event>, i: nat) {
    i < |events| && events[i].Silence?
    && events[i].now < events[i].until <= events[i].now + 30 * 86400
    && Known(events, i, events[i].id)
  }

  lemma {:induction false} ExistsIff(events: seq<Event>, id: string)
    ensures id in After(events).alerts <==> Known(events, |events|, id)
  {
    if events != [] {
      var init := events[..|events| - 1];
      ExistsIff(init, id);
      KnownInit(events, |init|, id);
      assert Known(events, |events|, id) <==>
        Known(events, |init|, id) || (events[|init|].Observe? && events[|init|].id == id);
    }
  }

  lemma KnownInit(events: seq<Event>, i: nat, id: string)
    requires i <= |events|
    ensures Known(events[..i], i, id) <==> Known(events, i, id)
  {
    if Known(events, i, id) {
      var j :| 0 <= j < i && events[j].Observe? && events[j].id == id;
      assert events[..i][j] == events[j];
    }
  }

  lemma SilencesIff(events: seq<Event>, i: nat)
    requires i < |events|
    ensures Silences(After(events[..i]), events[i]) <==> SilencesOne(events, i)
  {
    if events[i].Silence? {
      ExistsIff(events[..i], events[i].id);
      KnownInit(events, i, events[i].id);
    }
  }

  /** Every stored silence is one that an event made. */
  lemma {:induction false} SilenceWasMade(events: seq<Event>, m: Mute)
    requires m in After(events).silences
    ensures exists i: nat :: SilencesOne(events, i) && m.ends == events[i].until
  {
    var init := events[..|events| - 1];
    if m in After(init).silences {
      SilenceWasMade(init, m);
      var i: nat :| SilencesOne(init, i) && m.ends == init[i].until;
      assert init[..i] == events[..i];
      SilencesIff(init, i);
      SilencesIff(events, i);
      assert SilencesOne(events, i) && m.ends == events[i].until;
    } else {
      SilencesIff(events, |init|);
      assert SilencesOne(events, |init|) && m.ends == events[|init|].until;
    }
  }

  lemma SuppressedIff(events: seq<Event>, id: string, o: Observation)
    requires ClockRuns(events) && forall i | 0 <= i < |events| :: TimeOf(events[i]) <= o.now
    ensures var w := After(events);
            Suppressed(AlertOf(w, id), id, w.silences, o) <==>
            || (exists i: nat :: SilencesOne(events, i) && o.now < events[i].until)
            || (exists m <- o.windows :: m.starts <= o.now < m.ends && MeetsAll(m.matchers, o.rule))
  {
    SuppressionIsGlobal(events, id, o);
    var w := After(events);
    if m :| m in w.silences && o.now < m.ends {
      SilenceWasMade(events, m);
    }
    if i: nat :| SilencesOne(events, i) && o.now < events[i].until {
      SilencesIff(events, i);
      SilencesStay(events, i);
      assert o.now < Mute(Some(events[i].id), map[], events[i].now, events[i].until).ends;
    }
    forall m <- o.windows
      ensures Matches(m.matchers, o.rule) <==> MeetsAll(m.matchers, o.rule)
    {
      MatchesIff(m.matchers, o.rule);
    }
  }

  /** Main result: in every run a failure leaves its alert silenced if and only if some alert, this one
      or any other, was silenced until after it, or a maintenance window that meets the rule is on. */
  lemma FailureIsSilencedIff(events: seq<Event>, id: string, o: Observation)
    requires ClockRuns(events) && (forall i | 0 <= i < |events| :: TimeOf(events[i]) <= o.now) && !o.success
    ensures AlertOf(After(events + [Observe(id, o)]), id).state == Silenced <==>
            || (exists i: nat :: SilencesOne(events, i) && o.now < events[i].until)
            || (exists m <- o.windows :: m.starts <= o.now < m.ends && MeetsAll(m.matchers, o.rule))
  {
    var w := After(events);
    assert (events + [Observe(id, o)])[..|events|] == events;
    OthersKeep(w, Observe(id, o), id);
    ObservedMoves(AlertOf(w, id), id, w.silences, o);
    SuppressedIff(events, id, o);
  }

  // ---------------------------------------------------------------- what every event moves

  /** Main result: what an observation does to the state, in every case. The trailing runs of failures
      and of successes decide, as `CountersAreRuns` says. */
  lemma ObservationMoves(w: World, id: string, o: Observation)
    ensures var a, b := AlertOf(w, id), AlertOf(Step(w, Observe(id, o)), id);
            var muted := Suppressed(a, id, w.silences, o);
            && (b.state == Quiet <==> o.success && a.state in {Quiet, Resolved})
            && (b.state == Resolved <==>
                  o.success && a.state !in {Quiet, Resolved} && b.successes >= o.rule.recoveryThreshold)
            && (b.state == Silenced <==>
                  if o.success then a.state == Silenced && b.successes < o.rule.recoveryThreshold else muted)
            && (!o.success && !muted ==>
                  && (b.state == Acknowledged <==> a.state == Acknowledged)
                  && (b.state == Firing <==>
                        a.state == Firing || (a.state != Acknowledged && b.failures >= o.rule.failureThreshold))
                  && (b.state in {Acknowledged, Firing, Pending}))
            && (o.success && a.state !in {Quiet, Resolved} && b.successes < o.rule.recoveryThreshold ==>
                  b.state == a.state)
  {
    OthersKeep(w, Observe(id, o), id);
    ObservedMoves(AlertOf(w, id), id, w.silences, o);
    ObservedCounts(AlertOf(w, id), id, w.silences, o);
  }

  /** What an operator's event does, in every case. */
  lemma OperatorMoves(w: World, e: Event)
    requires !e.Observe?
    ensures var a, b := AlertOf(w, e.id), AlertOf(Step(w, e), e.id);
            if e.id in w.alerts && e.Acknowledge? && a.state in {Firing, Pending} then b.state == Acknowledged
            else if e.id in w.alerts && e.Close? && a.state in {Acknowledged, Resolved} then b.state == Closed
            else if e.id in w.alerts && e.Silence? && e.now < e.until <= e.now + 30 * 86400 then
              b.state == Silenced && b.silencedUntil == Some(e.until)
            else b == a
  {
    OthersKeep(w, e, e.id);
  }

  /** The time of the last recovery is set on entering resolved, cleared on entering firing, and
      otherwise left alone; an observation never touches the end of a silence. */
  lemma ResolvedAtFollows(w: World, e: Event, id: string)
    ensures var a, b := AlertOf(w, id), AlertOf(Step(w, e), id);
            && b.resolvedAt == (if a.state != Resolved && b.state == Resolved then Some(TimeOf(e))
                                else if a.state != Firing && b.state == Firing then None
                                else a.resolvedAt)
            && (e.Observe? || e.id != id ==> b.silencedUntil == a.silencedUntil)
            && b.log == if a.state == b.state then a.log else a.log + [Transition(a.state, b.state, TimeOf(e))]
  {
    OthersKeep(w, e, id);
    if e.Observe? && e.id == id {
      ObservedMoves(AlertOf(w, id), id, w.silences, e.o);
    }
  }

  // ---------------------------------------------------------------- who is notified when

  /** The channel is on and takes this kind of event and this severity. */
  predicate Takes(c: Channel, kind: Kind, severity: string) {
    && c.enabled
    && (c.eventScope != {} ==> kind in c.eventScope)
    && (c.severities != {} ==> severity in c.severities)
  }

  function Takers(channels: seq<Channel>, kind: Kind, severity: string): set<nat> {
    set i: nat | i < |channels| && Takes(channels[i], kind, severity)
  }

  lemma {:induction false} RecipientsTake(channels: seq<Channel>, kind: Kind, severity: string, id: string)
    ensures id in Recipients(channels, kind, severity) <==>
            exists c <- channels :: c.id == id && Takes(c, kind, severity)
  {
    if channels != [] {
      var init, last := channels[..|channels| - 1], channels[|channels| - 1];
      RecipientsTake(init, kind, severity, id);
      assert channels == init + [last];
    }
  }

  lemma {:induction false} RecipientsCount(channels: seq<Channel>, kind: Kind, severity: string)
    ensures |Recipients(channels, kind, severity)| == |Takers(channels, kind, severity)|
  {
    if channels != [] {
      var init, n := channels[..|channels| - 1], |channels| - 1;
      RecipientsCount(init, kind, severity);
      OneMoreTaker(channels, kind, severity);
      if Takes(channels[n], kind, severity) {
        assert |Takers(init, kind, severity) + {n}| == |Takers(init, kind, severity)| + 1;
      }
    }
  }

  lemma OneMoreTaker(channels: seq<Channel>, kind: Kind, severity: string)
    requires channels != []
    ensures var n: nat := |channels| - 1;
            Takers(channels, kind, severity) ==
              Takers(channels[..n], kind, severity) + if Takes(channels[n], kind, severity) then {n} else {}
  {
  }

  /** The kind of notice an event calls for: on entering firing, on entering resolved if the rule
      wants it, and on a failure that stays firing once the repeat interval since the latest notice
      is over. */
  ghost predicate Due(a: Alert, o: Observation, b: Alert, kind: Kind) {
    match kind
    case FiringNotice => a.state != Firing && b.state == Firing
    case ResolvedNotice => a.state != Resolved && b.state == Resolved && o.rule.recoveryNotices
    case Reminder =>
      a.state == Firing && b.state == Firing && !o.success
      && a.sent != [] && o.now - a.sent[|a.sent| - 1].at >= o.rule.repeatSeconds
  }

  /** Main result: in every run an event sends a notice if and only if it is an observation of the
      alert for which one is due and some channel takes it. It is sent at once and to exactly the
      channels that take it. */
  lemma NoticeIsSentIff(events: seq<Event>, id: string)
    requires events != [] && ClockRuns(events)
    ensures var e, a, b := events[|events| - 1], AlertOf(After(events[..|events| - 1]), id), AlertOf(After(events), id);
            && a.sent <= b.sent && |b.sent| <= |a.sent| + 1
            && (b.sent != a.sent <==>
                  e.Observe? && e.id == id
                  && exists kind :: Due(a, e.o, b, kind) && Takers(e.o.channels, kind, e.o.rule.severity) != {})
            && (b.sent != a.sent ==>
                  var n := b.sent[|a.sent|];
                  && n.at == TimeOf(e) && Due(a, e.o, b, n.kind)
                  && |n.channels| == |Takers(e.o.channels, n.kind, e.o.rule.severity)|
                  && forall c :: c in n.channels <==>
                       exists channel <- e.o.channels :: channel.id == c && Takes(channel, n.kind, e.o.rule.severity))
  {
    var init, e := events[..|events| - 1], events[|events| - 1];
    var a := AlertOf(After(init), id);
    BeforeTheLast(events);
    NoticesAreKept(init, id, TimeOf(e));
    OthersKeep(After(init), e, id);
    if e.Observe? && e.id == id {
      ObservedSends(a, id, After(init).silences, e.o);
    } else if e.id == id && id in After(init).alerts {
      OperatorsCountNothing(After(init), e);
    }
  }

  lemma CallsIff(a: Alert, id: string, silences: seq<Mute>, o: Observation, kind: Kind, now: int)
    requires NoticesKept(a, now)
    ensures Calls(a, o, Observed(a, id, silences, o).state) == Some(kind) <==>
            Due(a, o, Observed(a, id, silences, o), kind)
  {
    ObservedMoves(a, id, silences, o);
  }

  lemma ObservedSends(a: Alert, id: string, silences: seq<Mute>, o: Observation)
    requires exists now :: NoticesKept(a, now)
    ensures var b := Observed(a, id, silences, o);
            && a.sent <= b.sent && |b.sent| <= |a.sent| + 1
            && (b.sent != a.sent <==>
                  exists kind :: Due(a, o, b, kind) && Takers(o.channels, kind, o.rule.severity) != {})
            && (b.sent != a.sent ==>
                  var n := b.sent[|a.sent|];
                  && n.at == o.now && Due(a, o, b, n.kind)
                  && |n.channels| == |Takers(o.channels, n.kind, o.rule.severity)|
                  && forall c :: c in n.channels <==>
                       exists channel <- o.channels :: channel.id == c && Takes(channel, n.kind, o.rule.severity))
  {
    var b := Observed(a, id, silences, o);
    var now :| NoticesKept(a, now);
    forall kind
      ensures Calls(a, o, b.state) == Some(kind) <==> Due(a, o, b, kind)
    {
      CallsIff(a, id, silences, o, kind, now);
    }
    ObservedMoves(a, id, silences, o);
    if Calls(a, o, b.state).Some? {
      var kind := Calls(a, o, b.state).value;
      forall c
        ensures c in Recipients(o.channels, kind, o.rule.severity) <==>
                exists channel <- o.channels :: channel.id == c && Takes(channel, kind, o.rule.severity)
      {
        RecipientsTake(o.channels, kind, o.rule.severity, c);
      }
      RecipientsCount(o.channels, kind, o.rule.severity);
    }
  }
}
