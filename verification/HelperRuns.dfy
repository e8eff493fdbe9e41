/** What every run of the helper keeps: byte conservation, period accounting, totals that
    never decrease (agent/nethelper/main.go:133-178 and 265-387).

    The world is the durable policy list and the kernel table, plus three ghost ledgers: the
    bytes the kernel really counted for each counter since its policy was installed, the bytes
    that left a kernel counter without having been committed to the durable totals, and the
    closed periods of each policy. */
module HelperRuns {
  import opened Base
  import opened PolicyModel
  import opened NftTable
  import opened HelperNetwork
  import opened HelperAccounting

  // ---------------------------------------------------------------- one operation

  /** How the environment treats a snapshot. */
  datatype SnapshotEnv = SnapshotEnv(
    readable: bool,      // the first reading of the counters succeeds
    verifies: bool,      // the pre-check finds the qdiscs as expected and can read the counters
    restore: Faults,     // the restoring apply, if the pre-check fails
    rereadable: bool,    // the second reading of the counters succeeds
    written: bool)       // the checkpoint reaches the disk

  /** How the environment treats an operation that changes the ruleset. */
  datatype ChangeEnv = ChangeEnv(
    readable: bool,
    apply: Faults,
    written: bool,       // the new state reaches the disk
    undo: Faults,        // the apply that undoes the change, if it did not
    rewritten: bool)     // the old accounts reach the disk after that

  /** What reached the disk, if anything, and the kernel afterwards. */
  datatype Outcome = Outcome(committed: Option<seq<Policy>>, table: Option<Table>)

  function SnapshotOutcome(policies: seq<Policy>, t: Option<Table>, e: SnapshotEnv): Outcome {
    if !e.readable then Outcome(None, t)
    else if Verified(t, policies, e.verifies) then
      Outcome(if e.written then Some(Checkpointed(policies, CountersOf(t))) else None, t)
    else
      var baseline := Absorbed(policies, CountersOf(t));
      var r := ApplyOutcome(t, baseline, baseline, e.restore);
      Outcome(if e.rereadable && e.written then Some(Checkpointed(baseline, CountersOf(r.table))) else None, r.table)
  }

  /** Apply, then write; undo both when the writing fails. */
  function CommitOutcome(t: Option<Table>, baseline: seq<Policy>, desired: seq<Policy>, e: ChangeEnv): Outcome {
    var r := ApplyOutcome(t, baseline, desired, e.apply);
    if !r.ok then Outcome(None, r.table)
    else if e.written then Outcome(Some(desired), r.table)
    else Outcome(if e.rewritten then Some(baseline) else None, ApplyOutcome(r.table, desired, baseline, e.undo).table)
  }

  predicate CanRead(t: Option<Table>, readable: bool) {
    t.None? || readable
  }

  function ChangeOutcome(policies: seq<Policy>, t: Option<Table>, op: Operation, parsed: Policy, now: int,
                         e: ChangeEnv): Outcome
  {
    var baseline := Absorbed(policies, CountersOf(t));
    var d := DesiredState(baseline, op, parsed, now);
    if !CanRead(t, e.readable) || d.Err? then Outcome(None, t)
    else CommitOutcome(t, baseline, d.value.policies, e)
  }

  function DryRunOutcome(policies: seq<Policy>, t: Option<Table>, op: Operation, parsed: Policy, now: int,
                         readable: bool, written: bool): Outcome
  {
    var baseline := Absorbed(policies, CountersOf(t));
    if !CanRead(t, readable) || DesiredState(baseline, op, parsed, now).Err? || !written then Outcome(None, t)
    else Outcome(Some(baseline), t)
  }

  function PurgeOutcome(policies: seq<Policy>, t: Option<Table>, e: ChangeEnv): Outcome {
    if !CanRead(t, e.readable) then Outcome(None, t)
    else CommitOutcome(t, Absorbed(policies, CountersOf(t)), [], e)
  }

  // ---------------------------------------------------------------- the world

  datatype Event =
    | Traffic(name: string, bytes: nat)
    | External(after: Option<Table>)
    | Snapshot(look: SnapshotEnv)
    | Change(op: Operation, parsed: Policy, now: int, env: ChangeEnv)
    | DryRun(op: Operation, parsed: Policy, now: int, readable: bool, written: bool)
    | Purge(env: ChangeEnv)

  datatype World = World(
    policies: seq<Policy>,
    table: Option<Table>,
    counted: string -> nat,
    vanished: string -> nat,
    closed: (string, Way) -> seq<int>)

  function Raw(t: Option<Table>, name: string): nat {
    Read(CountersOf(t), name)
  }

  /** What the environment may do: a counter lost outside the helper never reads more than
      before; requests carry a policy that was just parsed. */
  ghost predicate Legal(w: World, e: Event) {
    match e
    case External(after) => forall name :: Raw(after, name) <= Raw(w.table, name)
    case Change(_, parsed, _, _) => FreshlyParsed(parsed)
    case DryRun(_, parsed, _, _, _) => FreshlyParsed(parsed)
    case _ => true
  }

  function OutcomeOf(w: World, e: Event): Outcome
    requires !e.Traffic? && !e.External?
  {
    match e
    case Snapshot(look) => SnapshotOutcome(w.policies, w.table, look)
    case Change(op, parsed, now, env) => ChangeOutcome(w.policies, w.table, op, parsed, now, env)
    case DryRun(op, parsed, now, readable, written) =>
      DryRunOutcome(w.policies, w.table, op, parsed, now, readable, written)
    case Purge(env) => PurgeOutcome(w.policies, w.table, env)
  }

  /** The requested change itself took effect: applied and written. */
  predicate Took(w: World, e: Event) {
    e.Change? && OutcomeOf(w, e).committed.Some? && e.env.written
  }

  /** The change brought in a policy that was not there. */
  predicate Installs(w: World, e: Event, id: string) {
    Took(w, e) && e.op.Apply? && id == e.parsed.id && Find(w.policies, id).None?
  }

  function TableAfter(w: World, e: Event): Option<Table> {
    match e
    case Traffic(name, bytes) =>
      if w.table.Some? && name in w.table.value.counters
      then Some(w.table.value.(counters := w.table.value.counters[name := w.table.value.counters[name] + bytes]))
      else w.table
    case External(after) => after
    case _ => OutcomeOf(w, e).table
  }

  /** Bytes that leave counter `name` in this step without being committed. */
  function Lost(w: World, e: Event, name: string): nat {
    if e.External? || (!e.Traffic? && OutcomeOf(w, e).committed.None?)
    then Pos(Raw(w.table, name) - Raw(TableAfter(w, e), name))
    else 0
  }

  /** Bytes the kernel really counts on `name` in this step. */
  function Carried(w: World, e: Event, name: string): nat {
    if e.Traffic? && e.name == name then Raw(TableAfter(w, e), name) - Raw(w.table, name) else 0
  }

  predicate NamesPolicy(id: string, name: string) {
    name == CounterName(id, Rx) || name == CounterName(id, Tx)
  }

  function PoliciesAfter(w: World, e: Event): seq<Policy> {
    if e.Traffic? || e.External? || OutcomeOf(w, e).committed.None? then w.policies
    else OutcomeOf(w, e).committed.value
  }

  function ClosedAfter(w: World, e: Event, id: string, way: Way): seq<int> {
    if Took(w, e) then ClosedByChange(w, e.op, e.parsed, id, way) else w.closed(id, way)
  }

  /** A policy that comes in has no closed period, and a reset closes the running one. */
  function ClosedByChange(w: World, op: Operation, parsed: Policy, id: string, way: Way): seq<int> {
    var i := Find(w.policies, id);
    if id != parsed.id then w.closed(id, way)
    else if op.Apply? && i.None? then []
    else if op.Reset? && i.Some? then
      var p := AbsorbPolicy(w.policies[i.value], CountersOf(w.table));
      w.closed(id, way) + [p.Lifetime(way) - p.PeriodStart(way)]
    else w.closed(id, way)
  }

  /** A policy that comes in starts new ledgers for its two counters. */
  predicate Restarts(w: World, e: Event, name: string) {
    e.Change? && Installs(w, e, e.parsed.id) && NamesPolicy(e.parsed.id, name)
  }

  function CountedAfter(w: World, e: Event, name: string): nat {
    if Restarts(w, e, name) then 0 else w.counted(name) + Carried(w, e, name)
  }

  function VanishedAfter(w: World, e: Event, name: string): nat {
    if Restarts(w, e, name) then 0 else w.vanished(name) + Lost(w, e, name)
  }

  function Step(w: World, e: Event): World {
    World(PoliciesAfter(w, e), TableAfter(w, e),
          name => CountedAfter(w, e, name), name => VanishedAfter(w, e, name),
          (id, way) => ClosedAfter(w, e, id, way))
  }

  // ---------------------------------------------------------------- the ledger

  /** The two sides of conservation for one counter: what is recorded, with what is still
      unread, is at most what was counted; and what was counted is at most what is recorded
      plus what vanished. */
  ghost predicate Within(p: Policy, way: Way, raw: nat, counted: nat, vanished: nat) {
    p.Lifetime(way) + Pos(raw - p.LastKernel(way)) <= counted
      <= p.Lifetime(way) + (raw - p.LastKernel(way)) + vanished
  }

  ghost predicate Balanced(w: World) {
    forall i, way | 0 <= i < |w.policies| ::
      var name := CounterName(w.policies[i].id, way);
      Within(w.policies[i], way, Raw(w.table, name), w.counted(name), w.vanished(name))
  }

  /** The closed periods of a policy are exactly what its running period does not cover. */
  ghost predicate PeriodsAddUp(w: World) {
    forall i, way | 0 <= i < |w.policies| ::
      Sum(w.closed(w.policies[i].id, way)) == w.policies[i].PeriodStart(way)
  }

  // ---------------------------------------------------------------- proof, case by case

  lemma RealisedReadsZero(t: Option<Table>, policies: seq<Policy>, name: string)
    requires Realises(t, policies)
    ensures Raw(t, name) == 0
  {
  }

  /** An operation that fails leaves the counters alone or restarts them all. */
  lemma ApplyRestartsOrKeeps(t: Option<Table>, before: seq<Policy>, desired: seq<Policy>, f: Faults)
    requires Sane(before) && Sane(desired)
    ensures var r := ApplyOutcome(t, before, desired, f);
            && (r.ok ==> Realises(r.table, desired))
            && (EndingOf(t, before, desired, f).Untouched? ==> r.table == t)
            && (!EndingOf(t, before, desired, f).Untouched? ==> forall name :: Raw(r.table, name) == 0)
  {
    ApplyEnds(t, before, desired, f);
    var r := ApplyOutcome(t, before, desired, f);
    if !EndingOf(t, before, desired, f).Untouched? {
      forall name
        ensures Raw(r.table, name) == 0
      {
        if EndingOf(t, before, desired, f).BackToPrevious? {
          RealisedReadsZero(r.table, before, name);
        } else {
          RealisedReadsZero(r.table, desired, name);
        }
      }
    }
  }

  /** After a change the disk holds nothing new, or the desired state, or the old accounts;
      and whenever it holds something new every counter has restarted. */
  lemma CommitCases(t: Option<Table>, baseline: seq<Policy>, desired: seq<Policy>, e: ChangeEnv)
    requires Sane(baseline) && Sane(desired)
    ensures var o := CommitOutcome(t, baseline, desired, e);
            && (o.committed.Some? ==> o.committed.value == if e.written then desired else baseline)
            && (o.committed.Some? ==> forall name :: Raw(o.table, name) == 0)
            && (forall name :: Raw(o.table, name) <= Raw(t, name))
  {
    ApplyRestartsOrKeeps(t, baseline, desired, e.apply);
    var r := ApplyOutcome(t, baseline, desired, e.apply);
    if r.ok {
      forall name
        ensures Raw(r.table, name) == 0
      {
        RealisedReadsZero(r.table, desired, name);
      }
      ApplyRestartsOrKeeps(r.table, desired, baseline, e.undo);
    }
  }

  lemma DesiredOfBaseline(w: World, op: Operation, parsed: Policy, now: int)
    requires Sane(w.policies) && FreshlyParsed(parsed)
    ensures Sane(Absorbed(w.policies, CountersOf(w.table)))
    ensures var d := DesiredState(Absorbed(w.policies, CountersOf(w.table)), op, parsed, now);
            d.Ok? ==> Sane(d.value.policies)
  {
    var baseline := Absorbed(w.policies, CountersOf(w.table));
    AbsorbedSane(w.policies, CountersOf(w.table));
    if DesiredState(baseline, op, parsed, now).Ok? {
      DesiredSane(baseline, op, parsed, now);
    }
  }

  lemma EmptySane()
    ensures Sane([])
  {
  }

  /** A helper operation that commits nothing never raises a counter. */
  lemma NothingCommitted(w: World, e: Event, name: string)
    requires Sane(w.policies) && Legal(w, e) && !e.Traffic?
    requires e.External? || OutcomeOf(w, e).committed.None?
    ensures Raw(TableAfter(w, e), name) <= Raw(w.table, name)
  {
    AbsorbedSane(w.policies, CountersOf(w.table));
    var baseline := Absorbed(w.policies, CountersOf(w.table));
    match e
    case External(_) =>
    case Snapshot(look) =>
      ApplyRestartsOrKeeps(w.table, baseline, baseline, look.restore);
    case Change(op, parsed, now, env) =>
      DesiredOfBaseline(w, op, parsed, now);
      if DesiredState(baseline, op, parsed, now).Ok? {
        CommitCases(w.table, baseline, DesiredState(baseline, op, parsed, now).value.policies, env);
      }
    case DryRun(_, _, _, _, _) =>
    case Purge(env) =>
      EmptySane();
      CommitCases(w.table, baseline, [], env);
  }

  /** The stored state stays sane through every step. */
  lemma StepSane(w: World, e: Event)
    requires Sane(w.policies) && Legal(w, e)
    ensures Sane(PoliciesAfter(w, e))
  {
    AbsorbedSane(w.policies, CountersOf(w.table));
    var baseline := Absorbed(w.policies, CountersOf(w.table));
    match e
    case Traffic(_, _) =>
    case External(_) =>
    case Snapshot(look) =>
      CheckpointedSane(w.policies, CountersOf(w.table));
      CheckpointedSane(baseline, CountersOf(ApplyOutcome(w.table, baseline, baseline, look.restore).table));
    case Change(op, parsed, now, env) =>
      DesiredOfBaseline(w, op, parsed, now);
      if DesiredState(baseline, op, parsed, now).Ok? {
        CommitCases(w.table, baseline, DesiredState(baseline, op, parsed, now).value.policies, env);
      }
    case DryRun(_, _, _, _, _) =>
    case Purge(env) =>
      EmptySane();
      CommitCases(w.table, baseline, [], env);
  }

  /** The two branches that absorb counters although the kernel is not restarted: a committed
      dry run, and a committed snapshot whose restore was refused before the ruleset was
      replaced. They read the same bytes again later, unless the counters read zero. */
  predicate AbsorbsInPlace(w: World, e: Event) {
    match e
    case DryRun(_, _, _, _, _) => OutcomeOf(w, e).committed.Some?
    case Snapshot(look) =>
      var baseline := Absorbed(w.policies, CountersOf(w.table));
      OutcomeOf(w, e).committed.Some? && !Verified(w.table, w.policies, look.verifies)
      && EndingOf(w.table, baseline, baseline, look.restore).Untouched?
    case _ => false
  }

  ghost predicate CountersReadZero(w: World) {
    forall i, way | 0 <= i < |w.policies| :: Raw(w.table, CounterName(w.policies[i].id, way)) == 0
  }

  ghost predicate ReadsTwice(w: World, e: Event) {
    AbsorbsInPlace(w, e) && !CountersReadZero(w)
  }

  lemma Absorbs(p: Policy, way: Way, raw: Counters)
    ensures AbsorbPolicy(p, raw).Lifetime(way) ==
            p.Lifetime(way) + Pos(Read(raw, CounterName(p.id, way)) - p.LastKernel(way))
    ensures AbsorbPolicy(p, raw).LastKernel(way) == 0
    ensures AbsorbPolicy(p, raw).PeriodStart(way) == p.PeriodStart(way)
  {
  }

  lemma Checkpoints(p: Policy, way: Way, raw: Counters)
    ensures CheckpointPolicy(p, raw).Lifetime(way) ==
            p.Lifetime(way) + Pos(Read(raw, CounterName(p.id, way)) - p.LastKernel(way))
    ensures CheckpointPolicy(p, raw).LastKernel(way) == Max(p.LastKernel(way), Read(raw, CounterName(p.id, way)))
    ensures CheckpointPolicy(p, raw).PeriodStart(way) == p.PeriodStart(way)
  {
  }

  lemma BalanceOf(w: World, i: nat, way: Way)
    requires Balanced(w) && i < |w.policies|
    ensures var name := CounterName(w.policies[i].id, way);
            Within(w.policies[i], way, Raw(w.table, name), w.counted(name), w.vanished(name))
  {
  }

  /** Traffic on one counter. */
  lemma TrafficBalanced(w: World, e: Event)
    requires Balanced(w) && e.Traffic?
    ensures Balanced(Step(w, e))
  {
    var w' := Step(w, e);
    forall i, way | 0 <= i < |w'.policies|
      ensures var name := CounterName(w'.policies[i].id, way);
              Within(w'.policies[i], way, Raw(w'.table, name), w'.counted(name), w'.vanished(name))
    {
      BalanceOf(w, i, way);
    }
  }

  /** A step that commits nothing. */
  lemma LossBalanced(w: World, e: Event)
    requires Sane(w.policies) && Legal(w, e) && Balanced(w) && !e.Traffic?
    requires e.External? || OutcomeOf(w, e).committed.None?
    ensures Balanced(Step(w, e))
  {
    var w' := Step(w, e);
    forall i, way | 0 <= i < |w'.policies|
      ensures var name := CounterName(w'.policies[i].id, way);
              Within(w'.policies[i], way, Raw(w'.table, name), w'.counted(name), w'.vanished(name))
    {
      BalanceOf(w, i, way);
      NothingCommitted(w, e, CounterName(w.policies[i].id, way));
    }
  }

  /** A checkpoint where the kernel is not touched. */
  lemma CheckpointBalanced(w: World, e: Event)
    requires Balanced(w) && e.Snapshot? && OutcomeOf(w, e).committed.Some?
    requires Verified(w.table, w.policies, e.look.verifies)
    ensures Balanced(Step(w, e))
  {
    var w' := Step(w, e);
    forall i, way | 0 <= i < |w'.policies|
      ensures var name := CounterName(w'.policies[i].id, way);
              Within(w'.policies[i], way, Raw(w'.table, name), w'.counted(name), w'.vanished(name))
    {
      BalanceOf(w, i, way);
      Checkpoints(w.policies[i], way, CountersOf(w.table));
    }
  }

  /** Counters absorbed and restarted: the accounts are those of the baseline. */
  lemma RestartBalanced(p: Policy, q: Policy, way: Way, raw: Counters, counted: nat, vanished: nat)
    requires Within(p, way, Read(raw, CounterName(p.id, way)), counted, vanished)
    requires q.Lifetime(way) == AbsorbPolicy(p, raw).Lifetime(way) && q.LastKernel(way) == 0
    ensures Within(q, way, 0, counted, vanished)
  {
    Absorbs(p, way, raw);
  }

  /** A snapshot that had to restore the ruleset. */
  lemma RestoreBalanced(w: World, e: Event)
    requires Sane(w.policies) && Balanced(w) && e.Snapshot? && OutcomeOf(w, e).committed.Some?
    requires !Verified(w.table, w.policies, e.look.verifies) && !ReadsTwice(w, e)
    ensures Balanced(Step(w, e))
  {
    var w', raw := Step(w, e), CountersOf(w.table);
    var baseline := Absorbed(w.policies, raw);
    AbsorbedSane(w.policies, raw);
    ApplyRestartsOrKeeps(w.table, baseline, baseline, e.look.restore);
    forall i, way | 0 <= i < |w'.policies|
      ensures var name := CounterName(w'.policies[i].id, way);
              Within(w'.policies[i], way, Raw(w'.table, name), w'.counted(name), w'.vanished(name))
    {
      var name := CounterName(w.policies[i].id, way);
      BalanceOf(w, i, way);
      assert Raw(w'.table, name) == 0;
      Absorbs(w.policies[i], way, raw);
      Checkpoints(baseline[i], way, CountersOf(w'.table));
      RestartBalanced(w.policies[i], w'.policies[i], way, raw, w.counted(name), w.vanished(name));
    }
  }

  /** A committed dry run on counters that all read zero. */
  lemma DryRunBalanced(w: World, e: Event)
    requires Balanced(w) && e.DryRun? && OutcomeOf(w, e).committed.Some? && !ReadsTwice(w, e)
    ensures Balanced(Step(w, e))
  {
    var w', raw := Step(w, e), CountersOf(w.table);
    forall i, way | 0 <= i < |w'.policies|
      ensures var name := CounterName(w'.policies[i].id, way);
              Within(w'.policies[i], way, Raw(w'.table, name), w'.counted(name), w'.vanished(name))
    {
      var name := CounterName(w.policies[i].id, way);
      BalanceOf(w, i, way);
      assert Raw(w.table, name) == 0;
      Absorbs(w.policies[i], way, raw);
      RestartBalanced(w.policies[i], w'.policies[i], way, raw, w.counted(name), w.vanished(name));
    }
  }

  /** Policy `q` carries on the accounts of stored policy `i`, with the unread bytes folded in. */
  ghost predicate CarriesOn(w: World, op: Operation, parsed: Policy, q: Policy, i: int) {
    && 0 <= i < |w.policies| && w.policies[i].id == q.id
    && forall way ::
         && q.Lifetime(way) == AbsorbPolicy(w.policies[i], CountersOf(w.table)).Lifetime(way)
         && q.LastKernel(way) == 0
         && q.PeriodStart(way) ==
            if op.Reset? && q.id == parsed.id then q.Lifetime(way) else w.policies[i].PeriodStart(way)
  }

  /** Policy `q` is new and its accounts are empty. */
  ghost predicate StartsOut(w: World, op: Operation, parsed: Policy, q: Policy) {
    && op.Apply? && q.id == parsed.id && Find(w.policies, q.id).None?
    && forall way :: q.Lifetime(way) == q.LastKernel(way) == q.PeriodStart(way) == 0
  }

  /** Where a policy of the desired state gets its accounts, seen from the stored list. */
  lemma AccountsAfterChange(w: World, op: Operation, parsed: Policy, now: int, k: nat)
    requires Sane(w.policies) && FreshlyParsed(parsed)
    requires DesiredState(Absorbed(w.policies, CountersOf(w.table)), op, parsed, now).Ok?
    requires k < |DesiredState(Absorbed(w.policies, CountersOf(w.table)), op, parsed, now).value.policies|
    ensures var q := DesiredState(Absorbed(w.policies, CountersOf(w.table)), op, parsed, now).value.policies[k];
            (exists i :: CarriesOn(w, op, parsed, q, i)) || StartsOut(w, op, parsed, q)
  {
    var raw := CountersOf(w.table);
    var baseline := Absorbed(w.policies, raw);
    AbsorbedSane(w.policies, raw);
    RequestKeepsAccounts(baseline, op, parsed, now, k);
    var q := DesiredState(baseline, op, parsed, now).value.policies[k];
    if i :| 0 <= i < |baseline| && baseline[i].id == q.id {
      assert baseline[i] == AbsorbPolicy(w.policies[i], raw);
      assert baseline[i].id == w.policies[i].id;
      UniqueSource(baseline, q, op, parsed, i);
      forall way
        ensures q.Lifetime(way) == baseline[i].Lifetime(way) && q.LastKernel(way) == 0
        ensures q.PeriodStart(way) ==
                if op.Reset? && q.id == parsed.id then q.Lifetime(way) else w.policies[i].PeriodStart(way)
      {
        Absorbs(w.policies[i], way, raw);
      }
      assert CarriesOn(w, op, parsed, q, i);
    } else {
      forall i | 0 <= i < |w.policies|
        ensures w.policies[i].id != q.id
      {
        assert baseline[i].id == w.policies[i].id;
      }
    }
  }

  lemma UniqueSource(current: seq<Policy>, q: Policy, op: Operation, parsed: Policy, i: nat)
    requires DistinctIds(current) && i < |current| && current[i].id == q.id
    requires ComesFrom(q, current, op, parsed)
    requires forall j, way | 0 <= j < |current| :: current[j].LastKernel(way) == 0
    ensures forall way :: q.Lifetime(way) == current[i].Lifetime(way) && q.LastKernel(way) == 0
    ensures forall way ::
              q.PeriodStart(way) ==
              if op.Reset? && q.id == parsed.id then q.Lifetime(way) else current[i].PeriodStart(way)
  {
    assert current[i].LastKernel(Rx) == 0 && current[i].LastKernel(Tx) == 0;
  }

  /** A change that took effect. */
  lemma ChangeBalanced(w: World, e: Event)
    requires Sane(w.policies) && Balanced(w) && Legal(w, e) && Took(w, e)
    ensures Balanced(Step(w, e))
  {
    var w', raw := Step(w, e), CountersOf(w.table);
    DesiredOfBaseline(w, e.op, e.parsed, e.now);
    var desired := DesiredState(Absorbed(w.policies, raw), e.op, e.parsed, e.now).value.policies;
    CommitCases(w.table, Absorbed(w.policies, raw), desired, e.env);
    forall k, way | 0 <= k < |w'.policies|
      ensures var name := CounterName(w'.policies[k].id, way);
              Within(w'.policies[k], way, Raw(w'.table, name), w'.counted(name), w'.vanished(name))
    {
      var q, name := desired[k], CounterName(desired[k].id, way);
      AccountsAfterChange(w, e.op, e.parsed, e.now, k);
      if i :| CarriesOn(w, e.op, e.parsed, q, i) {
        BalanceOf(w, i, way);
        RestartBalanced(w.policies[i], q, way, raw, w.counted(name), w.vanished(name));
        OthersKeepLedgers(w, e, i, way);
      }
    }
  }

  lemma OthersKeepLedgers(w: World, e: Event, i: nat, way: Way)
    requires Sane(w.policies) && Legal(w, e) && e.Change? && i < |w.policies|
    ensures !Restarts(w, e, CounterName(w.policies[i].id, way))
  {
    if Restarts(w, e, CounterName(w.policies[i].id, way)) {
      var way' :| CounterName(w.policies[i].id, way) == CounterName(e.parsed.id, way');
      assert Bounded(w.policies[i]);
      CounterNameInjective(w.policies[i].id, way, e.parsed.id, way');
    }
  }

  /** A change undone because it could not be written, whose old accounts were. */
  lemma UndoneBalanced(w: World, e: Event)
    requires Sane(w.policies) && Balanced(w) && Legal(w, e)
    requires e.Change? && OutcomeOf(w, e).committed.Some? && !Took(w, e)
    ensures Balanced(Step(w, e))
  {
    DesiredOfBaseline(w, e.op, e.parsed, e.now);
    var baseline := Absorbed(w.policies, CountersOf(w.table));
    CommitCases(w.table, baseline, DesiredState(baseline, e.op, e.parsed, e.now).value.policies, e.env);
    BaselineBalanced(w, e);
  }

  lemma BaselineBalanced(w: World, e: Event)
    requires Balanced(w) && !e.Traffic? && !e.External? && !Took(w, e)
    requires OutcomeOf(w, e).committed == Some(Absorbed(w.policies, CountersOf(w.table)))
    requires forall name :: Raw(OutcomeOf(w, e).table, name) == 0
    ensures Balanced(Step(w, e))
  {
    var w', raw := Step(w, e), CountersOf(w.table);
    forall i, way | 0 <= i < |w'.policies|
      ensures var name := CounterName(w'.policies[i].id, way);
              Within(w'.policies[i], way, Raw(w'.table, name), w'.counted(name), w'.vanished(name))
    {
      var name := CounterName(w.policies[i].id, way);
      BalanceOf(w, i, way);
      Absorbs(w.policies[i], way, raw);
      RestartBalanced(w.policies[i], w'.policies[i], way, raw, w.counted(name), w.vanished(name));
    }
  }

  lemma PurgeBalanced(w: World, e: Event)
    requires Sane(w.policies) && Balanced(w) && e.Purge? && OutcomeOf(w, e).committed.Some?
    ensures Balanced(Step(w, e))
  {
    AbsorbedSane(w.policies, CountersOf(w.table));
    EmptySane();
    CommitCases(w.table, Absorbed(w.policies, CountersOf(w.table)), [], e.env);
    if !e.env.written {
      BaselineBalanced(w, e);
    }
  }

  /** Main step: every event keeps both sides of conservation, unless it reads bytes twice. */
  lemma StepBalanced(w: World, e: Event)
    requires Sane(w.policies) && Balanced(w) && Legal(w, e) && !ReadsTwice(w, e)
    ensures Balanced(Step(w, e))
  {
    if e.Traffic? {
      TrafficBalanced(w, e);
    } else if e.External? || OutcomeOf(w, e).committed.None? {
      LossBalanced(w, e);
    } else {
      match e
      case Snapshot(look) =>
        if Verified(w.table, w.policies, look.verifies) {
          CheckpointBalanced(w, e);
        } else {
          RestoreBalanced(w, e);
        }
      case Change(_, _, _, _) =>
        if Took(w, e) {
          ChangeBalanced(w, e);
        } else {
          UndoneBalanced(w, e);
        }
      case DryRun(_, _, _, _, _) =>
        DryRunBalanced(w, e);
      case Purge(_) =>
        PurgeBalanced(w, e);
    }
  }

  // ---------------------------------------------------------------- double reading

  /** Nothing has vanished from the policies' counters so far. */
  ghost predicate Lossless(w: World) {
    forall i, way | 0 <= i < |w.policies| :: w.vanished(CounterName(w.policies[i].id, way)) == 0
  }

  lemma InPlaceCommits(w: World, e: Event, i: nat, way: Way)
    requires Sane(w.policies) && Legal(w, e) && AbsorbsInPlace(w, e) && i < |w.policies|
    ensures |Step(w, e).policies| == |w.policies| && Step(w, e).table == w.table
    ensures var p, q := w.policies[i], Step(w, e).policies[i];
            var raw := Raw(w.table, CounterName(p.id, way));
            && q.id == p.id
            && q.Lifetime(way) + Pos(raw - q.LastKernel(way)) == p.Lifetime(way) + Pos(raw - p.LastKernel(way)) + raw
            && Step(w, e).counted(CounterName(p.id, way)) == w.counted(CounterName(p.id, way))
            && Step(w, e).vanished(CounterName(p.id, way)) == w.vanished(CounterName(p.id, way))
  {
    var raw := CountersOf(w.table);
    var baseline := Absorbed(w.policies, raw);
    Absorbs(w.policies[i], way, raw);
    Checkpoints(baseline[i], way, raw);
    AbsorbedSane(w.policies, raw);
    if e.Snapshot? {
      ApplyRestartsOrKeeps(w.table, baseline, baseline, e.look.restore);
    }
  }

  /** Exactly when the two unsafe branches keep conservation: from a world in which nothing
      vanished, an absorption without a restart leaves the ledger balanced if and only if every
      policy counter reads zero. */
  lemma InPlaceBalancedIff(w: World, e: Event)
    requires Sane(w.policies) && Balanced(w) && Lossless(w) && Legal(w, e) && AbsorbsInPlace(w, e)
    ensures Balanced(Step(w, e)) <==> CountersReadZero(w)
  {
    if CountersReadZero(w) {
      StepBalanced(w, e);
    } else {
      var i, way :| 0 <= i < |w.policies| && Raw(w.table, CounterName(w.policies[i].id, way)) != 0;
      BalanceOf(w, i, way);
      InPlaceCommits(w, e, i, way);
      if Balanced(Step(w, e)) {
        BalanceOf(Step(w, e), i, way);
        assert false;
      }
    }
  }

  // ---------------------------------------------------------------- totals and periods

  /** A step that is not a change taking effect, nor a purge, keeps every policy in its place
      and folds bytes into it. */
  lemma OthersFold(w: World, e: Event, i: nat, way: Way)
    requires Sane(w.policies) && Legal(w, e) && !Took(w, e)
    requires i < |w.policies| && |PoliciesAfter(w, e)| > 0
    ensures |PoliciesAfter(w, e)| == |w.policies|
    ensures var p, q := w.policies[i], PoliciesAfter(w, e)[i];
            q.id == p.id && p.Lifetime(way) <= q.Lifetime(way) && q.PeriodStart(way) == p.PeriodStart(way)
  {
    var raw := CountersOf(w.table);
    var baseline := Absorbed(w.policies, raw);
    Absorbs(w.policies[i], way, raw);
    match e
    case Traffic(_, _) =>
    case External(_) =>
    case Snapshot(look) =>
      Checkpoints(w.policies[i], way, raw);
      Checkpoints(baseline[i], way, CountersOf(ApplyOutcome(w.table, baseline, baseline, look.restore).table));
    case Change(op, parsed, now, env) =>
      DesiredOfBaseline(w, op, parsed, now);
      if DesiredState(baseline, op, parsed, now).Ok? {
        CommitCases(w.table, baseline, DesiredState(baseline, op, parsed, now).value.policies, env);
      }
    case DryRun(_, _, _, _, _) =>
    case Purge(env) =>
      AbsorbedSane(w.policies, raw);
      EmptySane();
      CommitCases(w.table, baseline, [], env);
  }

  lemma TookAccounts(w: World, e: Event, k: nat)
    requires Sane(w.policies) && Legal(w, e) && Took(w, e) && k < |PoliciesAfter(w, e)|
    ensures var q := PoliciesAfter(w, e)[k];
            (exists i :: CarriesOn(w, e.op, e.parsed, q, i)) || StartsOut(w, e.op, e.parsed, q)
  {
    var baseline := Absorbed(w.policies, CountersOf(w.table));
    DesiredOfBaseline(w, e.op, e.parsed, e.now);
    CommitCases(w.table, baseline, DesiredState(baseline, e.op, e.parsed, e.now).value.policies, e.env);
    AccountsAfterChange(w, e.op, e.parsed, e.now, k);
  }

  lemma TookGains(w: World, e: Event, i: nat, k: nat, way: Way)
    requires Sane(w.policies) && Legal(w, e) && Took(w, e)
    requires i < |w.policies| && k < |PoliciesAfter(w, e)| && PoliciesAfter(w, e)[k].id == w.policies[i].id
    ensures w.policies[i].Lifetime(way) <= PoliciesAfter(w, e)[k].Lifetime(way)
  {
    TookAccounts(w, e, k);
    var j :| CarriesOn(w, e.op, e.parsed, PoliciesAfter(w, e)[k], j);
    assert j == i;
    Absorbs(w.policies[i], way, CountersOf(w.table));
  }

  /** A policy that is stored before and after a step keeps its total or gains. */
  lemma StepGains(w: World, e: Event, i: nat, k: nat, way: Way)
    requires Sane(w.policies) && Legal(w, e)
    requires i < |w.policies| && k < |PoliciesAfter(w, e)| && PoliciesAfter(w, e)[k].id == w.policies[i].id
    ensures w.policies[i].Lifetime(way) <= PoliciesAfter(w, e)[k].Lifetime(way)
  {
    if Took(w, e) {
      TookGains(w, e, i, k, way);
    } else {
      OthersGain(w, e, i, k, way);
    }
  }

  lemma OthersGain(w: World, e: Event, i: nat, k: nat, way: Way)
    requires Sane(w.policies) && Legal(w, e) && !Took(w, e)
    requires i < |w.policies| && k < |PoliciesAfter(w, e)| && PoliciesAfter(w, e)[k].id == w.policies[i].id
    ensures w.policies[i].Lifetime(way) <= PoliciesAfter(w, e)[k].Lifetime(way)
  {
    OthersKeepLength(w, e);
    OthersFold(w, e, k, way);
    assert w.policies[k].id == w.policies[i].id;
  }

  /** Period accounting survives every step: a reset closes the running period, a new policy
      has none, everything else leaves the periods alone. */
  lemma StepPeriods(w: World, e: Event)
    requires Sane(w.policies) && Legal(w, e) && PeriodsAddUp(w)
    ensures PeriodsAddUp(Step(w, e))
  {
    var w' := Step(w, e);
    forall k, way | 0 <= k < |w'.policies|
      ensures Sum(w'.closed(w'.policies[k].id, way)) == w'.policies[k].PeriodStart(way)
    {
      if Took(w, e) {
        TookPeriods(w, e, k, way);
      } else {
        OthersKeepLength(w, e);
        OthersFold(w, e, k, way);
        assert Sum(w.closed(w.policies[k].id, way)) == w.policies[k].PeriodStart(way);
      }
    }
  }

  lemma OthersKeepLength(w: World, e: Event)
    requires Sane(w.policies) && Legal(w, e) && !Took(w, e) && |PoliciesAfter(w, e)| > 0
    ensures |PoliciesAfter(w, e)| == |w.policies|
  {
    if w.policies != [] {
      OthersFold(w, e, 0, Rx);
    } else if e.Change? {
      var baseline := Absorbed(w.policies, CountersOf(w.table));
      DesiredOfBaseline(w, e.op, e.parsed, e.now);
      if DesiredState(baseline, e.op, e.parsed, e.now).Ok? {
        CommitCases(w.table, baseline, DesiredState(baseline, e.op, e.parsed, e.now).value.policies, e.env);
      }
    }
  }

  lemma TookPeriods(w: World, e: Event, k: nat, way: Way)
    requires Sane(w.policies) && Legal(w, e) && PeriodsAddUp(w) && Took(w, e) && k < |PoliciesAfter(w, e)|
    ensures Sum(ClosedAfter(w, e, PoliciesAfter(w, e)[k].id, way)) == PoliciesAfter(w, e)[k].PeriodStart(way)
  {
    var q := PoliciesAfter(w, e)[k];
    TookAccounts(w, e, k);
    if i :| CarriesOn(w, e.op, e.parsed, q, i) {
      CarriedPeriods(w, e, q, i, way);
    }
  }

  lemma CarriedPeriods(w: World, e: Event, q: Policy, i: int, way: Way)
    requires Sane(w.policies) && Took(w, e) && PeriodsAddUp(w) && CarriesOn(w, e.op, e.parsed, q, i)
    ensures Sum(ClosedAfter(w, e, q.id, way)) == q.PeriodStart(way)
  {
    var stored := w.policies[i];
    FindStored(w.policies, i);
    assert Sum(w.closed(stored.id, way)) == stored.PeriodStart(way);
    if e.op.Reset? && q.id == e.parsed.id {
      ClosingPeriod(w.closed(stored.id, way), stored, way, CountersOf(w.table));
    }
  }

  lemma FindStored(policies: seq<Policy>, i: nat)
    requires DistinctIds(policies) && i < |policies|
    ensures Find(policies, policies[i].id) == Some(i)
  {
  }

  lemma ClosingPeriod(closed: seq<int>, stored: Policy, way: Way, raw: Counters)
    requires Sum(closed) == stored.PeriodStart(way)
    ensures var p := AbsorbPolicy(stored, raw);
            Sum(closed + [p.Lifetime(way) - p.PeriodStart(way)]) == p.Lifetime(way)
  {
    Absorbs(stored, way, raw);
    var p := AbsorbPolicy(stored, raw);
    SumAppend(closed, [p.Lifetime(way) - p.PeriodStart(way)]);
    assert [p.Lifetime(way) - p.PeriodStart(way)][..0] == [];
  }

  // ---------------------------------------------------------------- runs

  /** A host on which no policy was ever installed. */
  function Start(t: Option<Table>): World {
    World([], t, name => 0, name => 0, (id, way) => [])
  }

  function After(t: Option<Table>, events: seq<Event>): World {
    if events == [] then Start(t) else Step(After(t, events[..|events| - 1]), events[|events| - 1])
  }

  ghost predicate LegalRun(t: Option<Table>, events: seq<Event>) {
    forall k | 0 <= k < |events| :: Legal(After(t, events[..k]), events[k])
  }

  /** No absorption without a restart happens while a counter is not zero. */
  ghost predicate ReadsOnce(t: Option<Table>, events: seq<Event>) {
    forall k | 0 <= k < |events| :: !ReadsTwice(After(t, events[..k]), events[k])
  }

  /** No byte leaves a kernel counter uncommitted. */
  ghost predicate LosesNothing(t: Option<Table>, events: seq<Event>) {
    forall k, name | 0 <= k < |events| :: Lost(After(t, events[..k]), events[k], name) == 0
  }

  lemma Shorter(events: seq<Event>, k: nat)
    requires events != [] && k < |events|
    ensures events[..|events| - 1][..k] == events[..k]
  {
  }

  lemma InitLegal(t: Option<Table>, events: seq<Event>)
    requires events != [] && LegalRun(t, events)
    ensures LegalRun(t, events[..|events| - 1])
  {
    var init := events[..|events| - 1];
    forall k | 0 <= k < |init|
      ensures Legal(After(t, init[..k]), init[k])
    {
      Shorter(events, k);
    }
  }

  /** In every reachable state identifiers are distinct, at most 64 policies are stored, no
      period starts beyond its total, and the closed periods make up the period start: closed
      periods and the running one together are the lifetime total. */
  lemma {:induction false} PeriodsOverRuns(t: Option<Table>, events: seq<Event>)
    requires LegalRun(t, events)
    ensures Sane(After(t, events).policies)
    ensures forall i, way | 0 <= i < |After(t, events).policies| ::
              var p := After(t, events).policies[i];
              Sum(After(t, events).closed(p.id, way)) + (p.Lifetime(way) - p.PeriodStart(way)) == p.Lifetime(way)
  {
    RunInvariant(t, events);
  }

  lemma {:induction false} RunInvariant(t: Option<Table>, events: seq<Event>)
    requires LegalRun(t, events)
    ensures Sane(After(t, events).policies) && PeriodsAddUp(After(t, events))
  {
    if events == [] {
      EmptySane();
    } else {
      var init, e := events[..|events| - 1], events[|events| - 1];
      InitLegal(t, events);
      RunInvariant(t, init);
      assert Legal(After(t, events[..|events| - 1]), e);
      StepSane(After(t, init), e);
      StepPeriods(After(t, init), e);
    }
  }

  /** Main result: over every run that reads no byte twice, a policy's total together with the
      unread part of its counter never exceeds the bytes really counted for it, and falls short
      of them by no more than what vanished. */
  lemma {:induction false} ConservationOverRuns(t: Option<Table>, events: seq<Event>)
    requires LegalRun(t, events) && ReadsOnce(t, events)
    ensures Balanced(After(t, events))
  {
    if events != [] {
      var init, e := events[..|events| - 1], events[|events| - 1];
      InitLegal(t, events);
      forall k | 0 <= k < |init|
        ensures !ReadsTwice(After(t, init[..k]), init[k])
      {
        Shorter(events, k);
      }
      ConservationOverRuns(t, init);
      RunInvariant(t, init);
      assert Legal(After(t, events[..|events| - 1]), e) && !ReadsTwice(After(t, events[..|events| - 1]), e);
      StepBalanced(After(t, init), e);
    }
  }

  lemma {:induction false} NothingVanishes(t: Option<Table>, events: seq<Event>, name: string)
    requires LosesNothing(t, events)
    ensures After(t, events).vanished(name) == 0
  {
    if events != [] {
      var init, e := events[..|events| - 1], events[|events| - 1];
      forall k, name | 0 <= k < |init|
        ensures Lost(After(t, init[..k]), init[k], name) == 0
      {
        Shorter(events, k);
      }
      NothingVanishes(t, init, name);
      assert Lost(After(t, events[..|events| - 1]), e, name) == 0;
    }
  }

  /** When no counter was lost, conservation is exact. */
  lemma ExactWithoutLoss(t: Option<Table>, events: seq<Event>, i: nat, way: Way)
    requires LegalRun(t, events) && ReadsOnce(t, events) && LosesNothing(t, events)
    requires i < |After(t, events).policies|
    ensures var w := After(t, events);
            var p, name := w.policies[i], CounterName(w.policies[i].id, way);
            p.Lifetime(way) + (Raw(w.table, name) - p.LastKernel(way)) == w.counted(name)
            && p.LastKernel(way) <= Raw(w.table, name)
  {
    ConservationOverRuns(t, events);
    NothingVanishes(t, events, CounterName(After(t, events).policies[i].id, way));
    BalanceOf(After(t, events), i, way);
  }

  function TotalOf(policies: seq<Policy>, id: string, way: Way): int {
    var i := Find(policies, id);
    if i.None? then 0 else policies[i.value].Lifetime(way)
  }

  lemma StepTotal(w: World, e: Event, id: string, way: Way)
    requires Sane(w.policies) && Legal(w, e)
    requires Find(w.policies, id).Some? && Find(PoliciesAfter(w, e), id).Some?
    ensures TotalOf(w.policies, id, way) <= TotalOf(PoliciesAfter(w, e), id, way)
  {
    StepGains(w, e, Find(w.policies, id).value, Find(PoliciesAfter(w, e), id).value, way);
  }

  ghost predicate StaysStored(t: Option<Table>, events: seq<Event>, from: nat, id: string) {
    forall k | from <= k <= |events| :: Find(After(t, events[..k]).policies, id).Some?
  }

  lemma StaysStoredInit(t: Option<Table>, events: seq<Event>, from: nat, id: string)
    requires from < |events| && StaysStored(t, events, from, id)
    ensures StaysStored(t, events[..|events| - 1], from, id)
    ensures Find(After(t, events[..|events| - 1]).policies, id).Some? && Find(After(t, events).policies, id).Some?
  {
    var init := events[..|events| - 1];
    forall k | from <= k <= |init|
      ensures Find(After(t, init[..k]).policies, id).Some?
    {
      assert init[..k] == events[..k];
    }
    assert events[..|events|] == events;
    assert init[..|init|] == init;
  }

  /** While a policy stays stored its totals never decrease, whatever happens. */
  lemma {:induction false} TotalsNeverDecrease(t: Option<Table>, events: seq<Event>, from: nat, id: string, way: Way)
    requires LegalRun(t, events) && from <= |events| && StaysStored(t, events, from, id)
    ensures TotalOf(After(t, events[..from]).policies, id, way) <= TotalOf(After(t, events).policies, id, way)
  {
    if from == |events| {
      assert events[..from] == events;
    } else {
      var init, e := events[..|events| - 1], events[|events| - 1];
      InitLegal(t, events);
      StaysStoredInit(t, events, from, id);
      TotalsNeverDecrease(t, init, from, id, way);
      assert init[..from] == events[..from];
      RunInvariant(t, init);
      assert Legal(After(t, events[..|init|]), e);
      StepTotal(After(t, init), e, id, way);
    }
  }
}
