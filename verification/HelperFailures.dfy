/** Where the helper's accounts and the kernel's part ways: the bytes a failed operation loses,
    and inputs on which the two branches that absorb counters in place count bytes twice
    (agent/nethelper/main.go:139-151 and 355-387). */
module HelperFailures {
  import opened Base
  import opened PolicyModel
  import opened NftTable
  import opened HelperNetwork
  import opened HelperAccounting
  import opened HelperRuns

  // ---------------------------------------------------------------- bytes lost by the helper

  /** The operation replaced the kernel's ruleset, whatever came after. */
  predicate Replaces(w: World, e: Event) {
    var baseline := Absorbed(w.policies, CountersOf(w.table));
    match e
    case Traffic(_, _) => false
    case External(_) => false
    case DryRun(_, _, _, _, _) => false
    case Snapshot(look) =>
      look.readable && !Verified(w.table, w.policies, look.verifies)
      && !EndingOf(w.table, baseline, baseline, look.restore).Untouched?
    case Change(op, parsed, now, env) =>
      var d := DesiredState(baseline, op, parsed, now);
      CanRead(w.table, env.readable) && d.Ok? && !EndingOf(w.table, baseline, d.value.policies, env.apply).Untouched?
    case Purge(env) =>
      CanRead(w.table, env.readable) && !EndingOf(w.table, baseline, [], env.apply).Untouched?
  }

  lemma CommitReplaces(t: Option<Table>, baseline: seq<Policy>, desired: seq<Policy>, e: ChangeEnv, name: string)
    requires Sane(baseline) && Sane(desired)
    ensures Raw(CommitOutcome(t, baseline, desired, e).table, name) ==
            if EndingOf(t, baseline, desired, e.apply).Untouched? then Raw(t, name) else 0
  {
    ApplyRestartsOrKeeps(t, baseline, desired, e.apply);
    var r := ApplyOutcome(t, baseline, desired, e.apply);
    ApplyEnds(t, baseline, desired, e.apply);
    if r.ok {
      ApplyRestartsOrKeeps(r.table, desired, baseline, e.undo);
    }
  }

  /** An operation that replaces the ruleset leaves every counter at zero, and one that does not
      leaves every counter alone. */
  lemma ReplacedReadsZero(w: World, e: Event, name: string)
    requires Sane(w.policies) && Legal(w, e) && !e.Traffic? && !e.External?
    ensures Raw(TableAfter(w, e), name) == if Replaces(w, e) then 0 else Raw(w.table, name)
  {
    AbsorbedSane(w.policies, CountersOf(w.table));
    var baseline := Absorbed(w.policies, CountersOf(w.table));
    match e
    case Snapshot(look) =>
      ApplyRestartsOrKeeps(w.table, baseline, baseline, look.restore);
    case Change(op, parsed, now, env) =>
      DesiredOfBaseline(w, op, parsed, now);
      var d := DesiredState(baseline, op, parsed, now);
      if d.Ok? {
        CommitReplaces(w.table, baseline, d.value.policies, env, name);
      }
    case DryRun(_, _, _, _, _) =>
    case Purge(env) =>
      EmptySane();
      CommitReplaces(w.table, baseline, [], env, name);
  }

  /** Exactly when the helper itself loses bytes: it replaced the ruleset, could commit nothing,
      and the counter was not zero. Then the whole counter is lost. */
  lemma HelperLosesIff(w: World, e: Event, name: string)
    requires Sane(w.policies) && Legal(w, e) && !e.Traffic? && !e.External?
    ensures Lost(w, e, name) > 0 <==> OutcomeOf(w, e).committed.None? && Replaces(w, e) && Raw(w.table, name) > 0
    ensures Lost(w, e, name) > 0 ==> Lost(w, e, name) == Raw(w.table, name)
  {
    ReplacedReadsZero(w, e, name);
  }

  // ---------------------------------------------------------------- counting twice

  const FINE: Faults := Faults(true, true, true, true, true)
  const REFUSED: Faults := Faults(true, false, true, true, true)
  const GOOD: ChangeEnv := ChangeEnv(true, FINE, true, FINE, true)

  const ID: string := "00000000-0000-1000-8000-000000000000"
  const EXAMPLE: Policy :=
    Policy(ID, Tcp, BothWays, 80, 80, "", MonitorOnly, 0, 0, 1, 0, 0, 0, 0, 0, 0, 0, 0, "", "{}")

  lemma ExampleIsParsed()
    ensures FreshlyParsed(EXAMPLE)
  {
  }

  /** A host whose one policy was just applied. */
  function Installed(p: Policy): World {
    Step(Start(None), Change(Apply, p, 0, GOOD))
  }

  /** What the apply leaves: the policy stored, the ruleset in place, its counters at zero. */
  lemma InstallEnds(p: Policy)
    requires FreshlyParsed(p) && p.egressRate == 0 && p.direction.BothWays?
    ensures var o := ChangeOutcome([], None, Apply, p, 0, GOOD);
            && o.committed == Some([p.(periodStarted := 0)])
            && o.table.Some? && CounterName(p.id, Rx) in o.table.value.counters
            && Raw(o.table, CounterName(p.id, Rx)) == 0
  {
    assert Absorbed([], map[]) == [];
    FirstDesired(p);
    FirstApply(p.(periodStarted := 0));
  }

  lemma FirstApply(p: Policy)
    requires Sane([]) && Sane([p]) && p.egressRate == 0 && p.direction.BothWays?
    ensures var r := ApplyOutcome(None, [], [p], FINE);
            && r.ok && r.table.Some? && CounterName(p.id, Rx) in r.table.value.counters
            && Raw(r.table, CounterName(p.id, Rx)) == 0
  {
    ApplyEnds(None, [], [p], FINE);
    var t := ApplyOutcome(None, [], [p], FINE).table;
    RealisedIsVerified(t, [p]);
    assert CountersPresent(t.value, [p][0]);
    RealisedReadsZero(t, [p], CounterName(p.id, Rx));
  }

  lemma FirstDesired(p: Policy)
    requires FreshlyParsed(p)
    ensures Sane([]) && Sane([p.(periodStarted := 0)])
    ensures DesiredState([], Apply, p, 0) == Ok(Desired([p.(periodStarted := 0)], p.generation))
  {
    var desired := [p.(periodStarted := 0)];
    assert [] + desired == desired;
    EmptySane();
    DesiredSane([], Apply, p, 0);
  }

  lemma InstalledHolds(p: Policy)
    requires FreshlyParsed(p) && p.egressRate == 0 && p.direction.BothWays?
    ensures var w := Installed(p);
            && Sane(w.policies) && Balanced(w) && Lossless(w)
            && w.policies == [p.(periodStarted := 0)]
            && w.table.Some? && CounterName(p.id, Rx) in w.table.value.counters
            && Raw(w.table, CounterName(p.id, Rx)) == 0
  {
    var w, e := Start(None), Change(Apply, p, 0, GOOD);
    EmptySane();
    StepSane(w, e);
    StepBalanced(w, e);
    InstallEnds(p);
  }

  /** The same host after five bytes came in. */
  function Busy(p: Policy): World {
    Step(Installed(p), Traffic(CounterName(p.id, Rx), 5))
  }

  lemma BusyHolds(p: Policy)
    requires FreshlyParsed(p) && p.egressRate == 0 && p.direction.BothWays?
    ensures var w := Busy(p);
            && Sane(w.policies) && Balanced(w) && Lossless(w)
            && w.policies == [p.(periodStarted := 0)]
            && Raw(w.table, CounterName(p.id, Rx)) == 5
  {
    InstalledHolds(p);
    TrafficBalanced(Installed(p), Traffic(CounterName(p.id, Rx), 5));
  }

  lemma TwoSteps(t: Option<Table>, a: Event, b: Event)
    requires Legal(Start(t), a) && Legal(Step(Start(t), a), b)
    requires !ReadsTwice(Start(t), a) && !ReadsTwice(Step(Start(t), a), b)
    ensures After(t, [a, b]) == Step(Step(Start(t), a), b) && LegalRun(t, [a, b]) && ReadsOnce(t, [a, b])
  {
    var events := [a, b];
    assert events[..0] == [] && events[..1] == [a];
    assert [a][..0] == [];
    assert After(t, events[..1]) == Step(Start(t), a);
  }

  /** The busy host is reached by a legal run that reads no byte twice. */
  lemma BusyIsReached(p: Policy)
    requires FreshlyParsed(p)
    ensures var events := [Change(Apply, p, 0, GOOD), Traffic(CounterName(p.id, Rx), 5)];
            After(None, events) == Busy(p) && LegalRun(None, events) && ReadsOnce(None, events)
  {
    TwoSteps(None, Change(Apply, p, 0, GOOD), Traffic(CounterName(p.id, Rx), 5));
  }

  lemma CountsTwice(p: Policy, e: Event)
    requires FreshlyParsed(p) && p.egressRate == 0 && p.direction.BothWays?
    requires Legal(Busy(p), e) && AbsorbsInPlace(Busy(p), e)
    ensures Sane(Busy(p).policies) && Balanced(Busy(p)) && Lossless(Busy(p)) && !Balanced(Step(Busy(p), e))
  {
    BusyHolds(p);
    InPlaceBalancedIff(Busy(p), e);
    assert Raw(Busy(p).table, CounterName(Busy(p).policies[0].id, Rx)) == 5;
  }

  /** A dry run of a removal, committed on a busy host, counts the five bytes twice. */
  lemma DryRunCountsTwice()
    ensures Balanced(Busy(EXAMPLE)) && !Balanced(Step(Busy(EXAMPLE), DryRun(Remove, EXAMPLE, 1, true, true)))
  {
    ExampleIsParsed();
    DryRunCommits(EXAMPLE);
    CountsTwice(EXAMPLE, DryRun(Remove, EXAMPLE, 1, true, true));
  }

  lemma DryRunCommits(p: Policy)
    ensures AbsorbsInPlace(Busy(p), DryRun(Remove, p, 1, true, true))
  {
  }

  /** So does a snapshot of a busy host whose check fails and whose restore nft refuses. */
  lemma FailedRestoreCountsTwice()
    ensures Balanced(Busy(EXAMPLE))
    ensures !Balanced(Step(Busy(EXAMPLE), Snapshot(SnapshotEnv(true, false, REFUSED, true, true))))
  {
    ExampleIsParsed();
    BusyHolds(EXAMPLE);
    CountsTwice(EXAMPLE, Snapshot(SnapshotEnv(true, false, REFUSED, true, true)));
  }
}
