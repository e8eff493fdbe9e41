/** What a snapshot promises about the kernel: it finds out what is missing and puts it back
    (agent/nethelper/main.go:133-151, agent/nethelper/network.go:375-453). Stated by the names of
    the counters alone. */
module HelperHealing {
  import opened Base
  import opened PolicyModel
  import opened NftTable
  import opened HelperNetwork
  import opened HelperAccounting
  import opened HelperRuns

  /** The kernel shows every counter the stored policies ask for, and has no table when there is
      no policy. */
  predicate ShowsAll(t: Option<Table>, policies: seq<Policy>) {
    && (policies == [] <==> t.None?)
    && forall i | 0 <= i < |policies| ::
         && (policies[i].direction != TxOnly ==> CounterName(policies[i].id, Rx) in CountersOf(t))
         && (policies[i].direction != RxOnly ==> CounterName(policies[i].id, Tx) in CountersOf(t))
  }

  /** Every policy with a rate limit names its interface. */
  predicate ShapedAreNamed(policies: seq<Policy>) {
    forall i | 0 <= i < |policies| && policies[i].egressRate > 0 :: policies[i].interfaceName != ""
  }

  predicate FaultFree(f: Faults) {
    f.tcOwned && f.nftRuns && f.tcApplies && f.verifies && f.rollbackRuns
  }

  /** Exactly when an apply succeeds: every shaped policy names an interface, traffic control
      cooperates if any policy is shaped, nft runs if there is anything to run, and the check
      afterwards passes. */
  lemma ApplySucceedsIff(t: Option<Table>, before: seq<Policy>, desired: seq<Policy>, f: Faults)
    requires Sane(before) && Sane(desired)
    ensures ApplyOutcome(t, before, desired, f).ok <==>
            && ShapedAreNamed(before) && ShapedAreNamed(desired)
            && ((exists p <- before + desired :: p.egressRate > 0) ==> f.tcOwned && f.tcApplies)
            && (f.nftRuns || (desired == [] && t.None?))
            && f.verifies
  {
    ApplyEnds(t, before, desired, f);
    ShapesPlainly(before, desired);
  }

  lemma ShapesPlainly(before: seq<Policy>, desired: seq<Policy>)
    ensures Shapes(before) || Shapes(desired) <==> exists p <- before + desired :: p.egressRate > 0
    ensures NamesInterfaces(before) <==> ShapedAreNamed(before)
  {
    if i :| 0 <= i < |before| && before[i].egressRate > 0 {
      assert before[i] in before + desired;
    }
    if i :| 0 <= i < |desired| && desired[i].egressRate > 0 {
      assert desired[i] in before + desired;
    }
  }

  /** A ruleset that realises the policies shows all their counters. */
  lemma RealisedShowsAll(t: Option<Table>, policies: seq<Policy>)
    requires Sane(policies) && Realises(t, policies)
    ensures ShowsAll(t, policies)
  {
    RealisedIsVerified(t, policies);
  }

  /** Absorbing changes neither the names nor the directions. */
  lemma AbsorbedShows(t: Option<Table>, policies: seq<Policy>, raw: Counters)
    ensures ShowsAll(t, Absorbed(policies, raw)) <==> ShowsAll(t, policies)
    ensures ShapedAreNamed(Absorbed(policies, raw)) <==> ShapedAreNamed(policies)
  {
    var next := Absorbed(policies, raw);
    assert forall i | 0 <= i < |policies| ::
        next[i].id == policies[i].id && next[i].direction == policies[i].direction
        && next[i].egressRate == policies[i].egressRate && next[i].interfaceName == policies[i].interfaceName;
  }

  /** A fault-free restore leaves every counter in place. */
  lemma RestoreShowsAll(policies: seq<Policy>, t: Option<Table>, f: Faults)
    requires Sane(policies) && ShapedAreNamed(policies) && FaultFree(f)
    ensures var baseline := Absorbed(policies, CountersOf(t));
            var r := ApplyOutcome(t, baseline, baseline, f);
            r.ok && ShowsAll(r.table, policies)
  {
    var raw := CountersOf(t);
    var baseline := Absorbed(policies, raw);
    AbsorbedSane(policies, raw);
    AbsorbedShows(t, policies, raw);
    ApplySucceedsIff(t, baseline, baseline, f);
    ApplyEnds(t, baseline, baseline, f);
    var r := ApplyOutcome(t, baseline, baseline, f);
    RealisedShowsAll(r.table, baseline);
    AbsorbedShows(r.table, policies, raw);
  }

  /** Main result: a snapshot whose restore meets no fault leaves every counter of every stored
      policy in the kernel; if the devices pass their check, it leaves the ruleset alone if and
      only if nothing was missing. */
  lemma SnapshotHeals(policies: seq<Policy>, t: Option<Table>, e: SnapshotEnv)
    requires Sane(policies) && ShapedAreNamed(policies) && FaultFree(e.restore) && e.readable
    ensures ShowsAll(SnapshotOutcome(policies, t, e).table, policies)
    ensures e.verifies ==> (SnapshotOutcome(policies, t, e).table == t <==> ShowsAll(t, policies))
  {
    CheckSeesAll(t, policies);
    RestoreShowsAll(policies, t, e.restore);
  }

  /** The check passes exactly when the devices do and nothing is missing. */
  lemma CheckSeesAll(t: Option<Table>, policies: seq<Policy>)
    ensures Verified(t, policies, true) <==> ShowsAll(t, policies)
    ensures !Verified(t, policies, false)
  {
  }

  /** Whatever the faults: when something is missing the snapshot ends as the restoring apply
      does, and when nothing is and the devices pass, it does not touch the kernel. */
  lemma SnapshotActsIff(policies: seq<Policy>, t: Option<Table>, e: SnapshotEnv)
    requires e.readable
    ensures var baseline := Absorbed(policies, CountersOf(t));
            SnapshotOutcome(policies, t, e).table ==
            if e.verifies && ShowsAll(t, policies) then t else ApplyOutcome(t, baseline, baseline, e.restore).table
  {
    CheckSeesAll(t, policies);
  }

  // ---------------------------------------------------------------- runs

  lemma CommittedAreNamed(t: Option<Table>, baseline: seq<Policy>, desired: seq<Policy>, e: ChangeEnv)
    requires Sane(baseline) && Sane(desired) && CommitOutcome(t, baseline, desired, e).committed.Some?
    ensures ShapedAreNamed(CommitOutcome(t, baseline, desired, e).committed.value)
  {
    ApplySucceedsIff(t, baseline, desired, e.apply);
  }

  lemma CheckpointedAreNamed(policies: seq<Policy>, raw: Counters)
    requires ShapedAreNamed(policies)
    ensures ShapedAreNamed(Checkpointed(policies, raw))
  {
    var next := Checkpointed(policies, raw);
    assert forall i | 0 <= i < |policies| ::
        next[i].egressRate == policies[i].egressRate && next[i].interfaceName == policies[i].interfaceName;
  }

  lemma StepKeepsNamed(w: World, e: Event)
    requires Sane(w.policies) && Legal(w, e) && ShapedAreNamed(w.policies)
    ensures ShapedAreNamed(Step(w, e).policies)
  {
    var raw := CountersOf(w.table);
    var baseline := Absorbed(w.policies, raw);
    AbsorbedSane(w.policies, raw);
    AbsorbedShows(w.table, w.policies, raw);
    match e
    case Traffic(_, _) =>
    case External(_) =>
    case Snapshot(look) =>
      CheckpointedAreNamed(w.policies, raw);
      CheckpointedAreNamed(baseline, CountersOf(ApplyOutcome(w.table, baseline, baseline, look.restore).table));
    case Change(op, parsed, now, env) =>
      DesiredOfBaseline(w, op, parsed, now);
      if OutcomeOf(w, e).committed.Some? {
        CommittedAreNamed(w.table, baseline, DesiredState(baseline, op, parsed, now).value.policies, env);
      }
    case DryRun(_, _, _, _, _) =>
    case Purge(env) =>
      EmptySane();
      if OutcomeOf(w, e).committed.Some? {
        CommittedAreNamed(w.table, baseline, [], env);
      }
  }

  lemma LastLegal(t: Option<Table>, events: seq<Event>)
    requires events != [] && LegalRun(t, events)
    ensures Legal(After(t, events[..|events| - 1]), events[|events| - 1])
  {
  }

  /** In every reachable state each shaped policy names its interface, so no preflight refuses
      what is stored. */
  lemma {:induction false} NamedOverRuns(t: Option<Table>, events: seq<Event>)
    requires LegalRun(t, events)
    ensures ShapedAreNamed(After(t, events).policies)
  {
    if events != [] {
      var init, e := events[..|events| - 1], events[|events| - 1];
      InitLegal(t, events);
      NamedOverRuns(t, init);
      RunInvariant(t, init);
      LastLegal(t, events);
      StepKeepsNamed(After(t, init), e);
    }
  }

  /** Main result over runs: after any legal run, whatever was lost or damaged in the kernel, a
      snapshot that meets no fault leaves every counter of every stored policy in place. */
  lemma SnapshotHealsEveryRun(t: Option<Table>, events: seq<Event>, e: SnapshotEnv)
    requires LegalRun(t, events) && FaultFree(e.restore) && e.readable
    ensures ShowsAll(TableAfter(After(t, events), Snapshot(e)), After(t, events).policies)
  {
    NamedOverRuns(t, events);
    RunInvariant(t, events);
    SnapshotHeals(After(t, events).policies, After(t, events).table, e);
  }
}
